/** The hash-chained audit log. The hash is a parameter. */
module AuditChain {
  import opened Wrappers

  datatype Event = Event(content: string, prevHash: string, hash: string)

  /** Any function of an event; the event's own hash field is blank when hashed. */
  type Hash = Event -> string

  function ComputeHash(h: Hash, e: Event): string {
    h(e.(hash := ""))
  }

  /** A line of the log file. */
  datatype Line = Blank | Garbage | Entry(event: Event)

  /** Whether a line is short enough for the scanner that reads the file. */
  type Fits = Line -> bool

  datatype Verdict =
    | Accepted | CannotOpen | ScanError | InvalidJSON(line: nat) | BrokenChain(line: nat) | HashMismatch(line: nat)

  /** The verdict on the lines from i on, given the hash the chain has reached. */
  function VerifyFrom(h: Hash, fits: Fits, lines: seq<Line>, i: nat, expected: string): Verdict
    requires i <= |lines|
    decreases |lines| - i
  {
    if i == |lines| then Accepted
    else if !fits(lines[i]) then ScanError
    else match lines[i]
      case Blank => VerifyFrom(h, fits, lines, i + 1, expected)
      case Garbage => InvalidJSON(i + 1)
      case Entry(e) =>
        if e.prevHash != expected then BrokenChain(i + 1)
        else if ComputeHash(h, e) != e.hash then HashMismatch(i + 1)
        else VerifyFrom(h, fits, lines, i + 1, e.hash)
  }

  /** Verification of a file, which may be missing or not open. */
  method Verify(h: Hash, fits: Fits, file: Option<seq<Line>>, opens: bool) returns (v: Verdict)
    ensures v == if file.None? || !opens then CannotOpen else VerifyFrom(h, fits, file.value, 0, "")
  {
    if file.None? || !opens { return CannotOpen; }
    var lines, expectedPrev := file.value, "";
    for i := 0 to |lines|
      invariant VerifyFrom(h, fits, lines, i, expectedPrev) == VerifyFrom(h, fits, lines, 0, "")
    {
      if !fits(lines[i]) { return ScanError; }
      if lines[i].Garbage? { return InvalidJSON(i + 1); }
      if lines[i].Entry? {
        var e := lines[i].event;
        if e.prevHash != expectedPrev { return BrokenChain(i + 1); }
        if ComputeHash(h, e) != e.hash { return HashMismatch(i + 1); }
        expectedPrev := e.hash;
      }
    }
    return Accepted;
  }

  // ----- Chains -----

  function Events(lines: seq<Line>): seq<Event> {
    if lines == [] then []
    else Events(lines[..|lines| - 1]) + (if lines[|lines| - 1].Entry? then [lines[|lines| - 1].event] else [])
  }

  function EndHash(events: seq<Event>): string {
    if events == [] then "" else events[|events| - 1].hash
  }

  /** Every event names its predecessor's hash and carries its own. */
  predicate Chained(h: Hash, events: seq<Event>) {
    events == [] ||
    ( var last, front := events[|events| - 1], events[..|events| - 1];
      last.prevHash == EndHash(front) && last.hash == ComputeHash(h, last) && Chained(h, front))
  }

  /** Every line can be scanned and parsed. */
  predicate Readable(fits: Fits, lines: seq<Line>) {
    forall k | 0 <= k < |lines| :: fits(lines[k]) && !lines[k].Garbage?
  }

  lemma EventsSnoc(lines: seq<Line>, i: nat)
    requires i < |lines|
    ensures Events(lines[..i + 1]) == Events(lines[..i]) + (if lines[i].Entry? then [lines[i].event] else [])
  {
    assert lines[..i + 1][..i] == lines[..i];
  }

  /** One line of verification: it goes on exactly if the chain does. */
  lemma VerifyOne(h: Hash, fits: Fits, lines: seq<Line>, i: nat)
    requires i < |lines| && fits(lines[i]) && !lines[i].Garbage? && Chained(h, Events(lines[..i]))
    ensures var before, after := Events(lines[..i]), Events(lines[..i + 1]);
            if Chained(h, after)
            then VerifyFrom(h, fits, lines, i, EndHash(before)) == VerifyFrom(h, fits, lines, i + 1, EndHash(after))
            else !VerifyFrom(h, fits, lines, i, EndHash(before)).Accepted?
  {
    EventsSnoc(lines, i);
    var before, after := Events(lines[..i]), Events(lines[..i + 1]);
    hide Events;
    if lines[i].Entry? {
      ChainedSnoc(h, before, lines[i].event);
      hide Chained;
      assert EndHash(after) == lines[i].event.hash;
    } else {
      assert after == before;
    }
  }

  /** Verification accepts exactly the readable logs whose events are chained. */
  lemma {:induction false} AcceptsIff(h: Hash, fits: Fits, lines: seq<Line>, i: nat)
    requires i <= |lines| && Readable(fits, lines[..i]) && Chained(h, Events(lines[..i]))
    ensures VerifyFrom(h, fits, lines, i, EndHash(Events(lines[..i]))).Accepted? <==>
            Readable(fits, lines) && Chained(h, Events(lines))
    decreases |lines| - i
  {
    hide Chained, Events, EndHash;
    if i == |lines| {
      assert lines[..i] == lines;
    } else if fits(lines[i]) && !lines[i].Garbage? {
      VerifyOne(h, fits, lines, i);
      assert Readable(fits, lines[..i + 1]);
      hide VerifyFrom, Readable;
      if Chained(h, Events(lines[..i + 1])) { AcceptsIff(h, fits, lines, i + 1); } else { BadPrefix(h, lines, i + 1); }
    }
  }

  lemma ChainedSnoc(h: Hash, events: seq<Event>, e: Event)
    requires Chained(h, events)
    ensures Chained(h, events + [e]) <==> e.prevHash == EndHash(events) && e.hash == ComputeHash(h, e)
  {
    assert (events + [e])[..|events|] == events;
  }

  /** A log with a broken prefix is broken. */
  lemma {:induction false} BadPrefix(h: Hash, lines: seq<Line>, i: nat)
    requires i <= |lines| && !Chained(h, Events(lines[..i]))
    ensures !Chained(h, Events(lines))
    decreases |lines| - i
  {
    if i == |lines| {
      assert lines[..i] == lines;
    } else {
      EventsSnoc(lines, i);
      var before, after := Events(lines[..i]), Events(lines[..i + 1]);
      if lines[i].Entry? { assert after[..|after| - 1] == before; } else { assert after == before; }
      BadPrefix(h, lines, i + 1);
    }
  }

  /** A chain's beginning is a chain. */
  lemma ChainedPrefix(h: Hash, lines: seq<Line>, i: nat, k: nat)
    requires i <= k <= |lines| && Chained(h, Events(lines[..k]))
    ensures Chained(h, Events(lines[..i]))
  {
    assert lines[..k][..i] == lines[..i];
    if !Chained(h, Events(lines[..i])) { BadPrefix(h, lines[..k], i); }
  }

  /** Verification gets through every readable and chained beginning. */
  lemma {:induction false} VerifyReaches(h: Hash, fits: Fits, lines: seq<Line>, k: nat)
    requires k <= |lines| && Readable(fits, lines[..k]) && Chained(h, Events(lines[..k]))
    ensures VerifyFrom(h, fits, lines, 0, "") == VerifyFrom(h, fits, lines, k, EndHash(Events(lines[..k])))
    decreases k
  {
    if k == 0 {
      assert lines[..0] == [];
    } else {
      ChainedPrefix(h, lines, k - 1, k);
      assert lines[..k][k - 1] == lines[k - 1];
      assert Readable(fits, lines[..k - 1]) by {
        assert forall j | 0 <= j < k - 1 :: lines[..k - 1][j] == lines[..k][j];
      }
      hide Chained, Events, VerifyFrom, EndHash;
      VerifyReaches(h, fits, lines, k - 1);
      VerifyOne(h, fits, lines, k - 1);
    }
  }

  /** A rejected log is rejected for its first line that is too long, does not
      parse, does not name the hash before it, or does not carry its own, and for
      the first of these reasons; all but the first name that line. */
  lemma RejectsFirstFault(h: Hash, fits: Fits, lines: seq<Line>, k: nat)
    requires k < |lines| && Readable(fits, lines[..k]) && Chained(h, Events(lines[..k]))
    ensures var v := VerifyFrom(h, fits, lines, 0, "");
            && (!fits(lines[k]) ==> v == ScanError)
            && (fits(lines[k]) && lines[k].Garbage? ==> v == InvalidJSON(k + 1))
            && (fits(lines[k]) && lines[k].Entry? ==>
                  var e, before := lines[k].event, Events(lines[..k]);
                  if e.prevHash != (if before == [] then "" else before[|before| - 1].hash) then v == BrokenChain(k + 1)
                  else e.hash != h(Event(e.content, e.prevHash, "")) ==> v == HashMismatch(k + 1))
  {
    VerifyReaches(h, fits, lines, k);
    hide Events, Chained;
  }

  /** With an injective, never empty hash, a chained log is determined by its last
      hash: two that end alike are the same, event for event. */
  lemma {:induction false} EndDeterminesLog(h: Hash, a: seq<Event>, b: seq<Event>)
    requires forall x, y :: h(x) == h(y) ==> x == y
    requires forall x :: h(x) != ""
    requires Chained(h, a) && Chained(h, b) && EndHash(a) == EndHash(b)
    ensures a == b
    decreases |a|
  {
    if a != [] && b != [] {
      var a', b', x, y := a[..|a| - 1], b[..|b| - 1], a[|a| - 1], b[|b| - 1];
      assert x.(hash := "") == y.(hash := "");
      EndDeterminesLog(h, a', b');
      assert a == a' + [x] && b == b' + [y];
    }
  }

  /** So two accepted files that end in the same hash hold the same events. */
  lemma AcceptedFilesAgree(h: Hash, fits: Fits, a: seq<Line>, b: seq<Line>)
    requires forall x, y :: h(x) == h(y) ==> x == y
    requires forall x :: h(x) != ""
    requires VerifyFrom(h, fits, a, 0, "").Accepted? && VerifyFrom(h, fits, b, 0, "").Accepted?
    requires EndHash(Events(a)) == EndHash(Events(b))
    ensures Events(a) == Events(b)
  {
    assert a[..0] == [] && b[..0] == [];
    AcceptsIff(h, fits, a, 0);
    AcceptsIff(h, fits, b, 0);
    EndDeterminesLog(h, Events(a), Events(b));
  }

  // ----- Writing -----

  /** The sink's memory and its file; a missing file is None. */
  datatype Sink = Sink(file: Option<seq<Line>>, lastHash: string, init: bool)

  function Lines(s: Sink): seq<Line> {
    if s.file.Some? then s.file.value else []
  }

  /** What happens to a sink: an event is written, where the file may fail to open
      for reading or the write may fail leaving nothing behind, or the process restarts. */
  datatype Step = Write(content: string, opens: bool, ok: bool) | Restart

  /** The last line that is not blank. */
  function LastEntry(lines: seq<Line>): (last: Option<Line>)
    ensures last.Some? ==> !last.value.Blank?
  {
    if lines == [] then None
    else if lines[|lines| - 1].Blank? then LastEntry(lines[..|lines| - 1])
    else Some(lines[|lines| - 1])
  }

  lemma {:induction false} LastEntryAt(lines: seq<Line>, k: nat)
    requires k < |lines| && !lines[k].Blank? && forall j | k < j < |lines| :: lines[j].Blank?
    ensures LastEntry(lines) == Some(lines[k])
  {
    if k < |lines| - 1 { LastEntryAt(lines[..|lines| - 1], k); }
  }

  /** Reading the last hash from the file. A file that cannot be opened or scanned,
      or whose last line does not parse, is an error; a missing one is not. */
  function Loaded(fits: Fits, s: Sink, opens: bool): Option<Sink> {
    if s.init then Some(s)
    else if s.file.None? then Some(s.(init := true))
    else if !opens || !AllFit(fits, s.file.value) then None
    else match LastEntry(s.file.value)
      case None => Some(s.(init := true))
      case Some(Entry(e)) => Some(s.(init := true, lastHash := e.hash))
      case Some(_) => None
  }

  predicate AllFit(fits: Fits, lines: seq<Line>) {
    forall k | 0 <= k < |lines| :: fits(lines[k])
  }

  function Sealed(h: Hash, s: Sink, content: string): Event {
    var e := Event(content, s.lastHash, "");
    e.(hash := ComputeHash(h, e))
  }

  function Apply(h: Hash, fits: Fits, s: Sink, step: Step): Sink {
    match step
    case Restart => s.(lastHash := "", init := false)
    case Write(content, opens, ok) =>
      match Loaded(fits, s, opens)
      case None => s
      case Some(l) =>
        if !ok then l
        else
          var e := Sealed(h, l, content);
          l.(file := Some(Lines(l) + [Entry(e)]), lastHash := e.hash)
  }

  const FRESH := Sink(None, "", false)

  function Run(h: Hash, fits: Fits, steps: seq<Step>): Sink {
    if steps == [] then FRESH else Apply(h, fits, Run(h, fits, steps[..|steps| - 1]), steps[|steps| - 1])
  }

  /** A write whose caller is told that it succeeded. */
  predicate Succeeds(fits: Fits, s: Sink, step: Step) {
    step.Write? && step.ok && Loaded(fits, s, step.opens).Some?
  }

  /** The contents of the writes that succeeded, in order. */
  function Written(h: Hash, fits: Fits, steps: seq<Step>): seq<string> {
    if steps == [] then []
    else
      var front, last := steps[..|steps| - 1], steps[|steps| - 1];
      Written(h, fits, front) + (if Succeeds(fits, Run(h, fits, front), last) then [last.content] else [])
  }

  function Contents(events: seq<Event>): seq<string> {
    seq(|events|, i requires 0 <= i < |events| => events[i].content)
  }

  predicate OnlyEntries(lines: seq<Line>) {
    forall k | 0 <= k < |lines| :: lines[k].Entry?
  }

  /** The file is a chain, and a loaded sink knows its end. */
  ghost predicate Good(h: Hash, s: Sink) {
    && OnlyEntries(Lines(s)) && Chained(h, Events(Lines(s)))
    && s.lastHash == (if s.init then EndHash(Events(Lines(s))) else "")
  }

  lemma LoadedGood(h: Hash, fits: Fits, s: Sink, opens: bool)
    requires Good(h, s)
    ensures s.init || s.file.None? || (opens && AllFit(fits, Lines(s))) <==> Loaded(fits, s, opens).Some?
    ensures var l := Loaded(fits, s, opens);
            l.Some? ==> l.value.init && l.value.file == s.file && Good(h, l.value)
  {
    var lines := Lines(s);
    if lines != [] { assert lines[|lines| - 1].Entry?; }
  }

  /** A step keeps the log a chain, and adds the event of a write that succeeds. */
  lemma ApplyGood(h: Hash, fits: Fits, s: Sink, step: Step)
    requires Good(h, s)
    ensures var s' := Apply(h, fits, s, step);
            && Good(h, s')
            && Contents(Events(Lines(s'))) ==
               Contents(Events(Lines(s))) + (if Succeeds(fits, s, step) then [step.content] else [])
  {
    if step.Write? {
      LoadedGood(h, fits, s, step.opens);
      if Succeeds(fits, s, step) { WriteExtends(h, Loaded(fits, s, step.opens).value, step.content); }
    }
    hide Chained, Events, Contents, Loaded;
  }

  /** Whatever writes, failed writes and restarts a sink goes through, its log
      holds exactly the events whose writes succeeded, in order, and it is accepted
      exactly when the scanner can take all its lines. */
  lemma {:induction false} WrittenLogsVerify(h: Hash, fits: Fits, steps: seq<Step>)
    ensures var s := Run(h, fits, steps);
            && Good(h, s) && Contents(Events(Lines(s))) == Written(h, fits, steps)
            && (VerifyFrom(h, fits, Lines(s), 0, "").Accepted? <==> AllFit(fits, Lines(s)))
  {
    var s := Run(h, fits, steps);
    if steps != [] {
      var front := steps[..|steps| - 1];
      WrittenLogsVerify(h, fits, front);
      ApplyGood(h, fits, Run(h, fits, front), steps[|steps| - 1]);
    }
    GoodIsAccepted(h, fits, s);
    hide Good, VerifyFrom, AllFit, Apply, Events, Contents, Succeeds;
  }

  lemma GoodIsAccepted(h: Hash, fits: Fits, s: Sink)
    requires Good(h, s)
    ensures VerifyFrom(h, fits, Lines(s), 0, "").Accepted? <==> AllFit(fits, Lines(s))
  {
    assert Lines(s)[..0] == [];
    AcceptsIff(h, fits, Lines(s), 0);
    hide VerifyFrom, Chained;
  }

  /** A write is refused, when it could have been made, exactly if the process
      has restarted since, and the file has a line too long to scan or does not open. */
  lemma RefusedIff(h: Hash, fits: Fits, steps: seq<Step>, content: string, opens: bool)
    ensures var s := Run(h, fits, steps);
            !Succeeds(fits, s, Write(content, opens, true)) <==>
            !s.init && s.file.Some? && (!opens || !AllFit(fits, s.file.value))
  {
    WrittenLogsVerify(h, fits, steps);
    LoadedGood(h, fits, Run(h, fits, steps), opens);
  }

  lemma WriteExtends(h: Hash, s: Sink, content: string)
    requires Good(h, s) && s.init
    ensures var e := Sealed(h, s, content);
            var s' := s.(file := Some(Lines(s) + [Entry(e)]), lastHash := e.hash);
            Good(h, s') && Contents(Events(Lines(s'))) == Contents(Events(Lines(s))) + [content]
  {
    var e, lines := Sealed(h, s, content), Lines(s);
    var lines' := lines + [Entry(e)];
    assert lines'[..|lines|] == lines && lines'[..|lines| + 1] == lines';
    EventsSnoc(lines', |lines|);
    ChainedSnoc(h, Events(lines), e);
    hide Events, Chained;
  }

  class FileSink {
    const hash: Hash
    const fits: Fits
    var file: Option<seq<Line>>
    var lastHash: string
    var init: bool

    function View(): Sink
      reads this
    {
      Sink(file, lastHash, init)
    }

    /** A sink over whatever the file holds. */
    constructor (hash: Hash, fits: Fits, file: Option<seq<Line>>)
      ensures this.hash == hash && this.fits == fits && View() == Sink(file, "", false)
      ensures forall s: Sink | s.file == file :: View() == Apply(hash, fits, s, Restart)
    {
      this.hash, this.fits, this.file, lastHash, init := hash, fits, file, "", false;
    }

    method LoadLastHash(opens: bool) returns (ok: bool)
      requires !init
      modifies this
      ensures ok <==> Loaded(fits, old(View()), opens).Some?
      ensures View() == if ok then Loaded(fits, old(View()), opens).value else old(View())
      ensures ok ==> init && file == old(file)
      ensures file.None? ==> ok && lastHash == old(lastHash)
      ensures file.Some? && (!opens || exists k :: 0 <= k < |file.value| && !fits(file.value[k])) ==> !ok
      ensures file.Some? && opens && (forall k | 0 <= k < |file.value| :: fits(file.value[k])) ==>
                forall k | 0 <= k < |file.value| && !file.value[k].Blank?
                         && (forall j | k < j < |file.value| :: file.value[j].Blank?) ::
                  (ok <==> file.value[k].Entry?) && (ok ==> lastHash == file.value[k].event.hash)
    {
      if file.None? {
        init := true;
        return true;
      }
      if !opens { return false; }
      var lines, last := file.value, None;
      for i := 0 to |lines|
        invariant View() == old(View()) && last == LastEntry(lines[..i])
        invariant AllFit(fits, lines[..i])
      {
        if !fits(lines[i]) { return false; }
        assert lines[..i + 1][..i] == lines[..i];
        if !lines[i].Blank? { last := Some(lines[i]); }
      }
      assert lines[..|lines|] == lines;
      forall k | 0 <= k < |lines| && !lines[k].Blank? && (forall j | k < j < |lines| :: lines[j].Blank?)
        ensures last == Some(lines[k])
      {
        LastEntryAt(lines, k);
      }
      if last.Some? {
        if last.value.Garbage? { return false; }
        if last.value.Entry? { lastHash := last.value.event.hash; }
      }
      init := true;
      return true;
    }

    method WriteEvent(content: string, opens: bool, writable: bool) returns (ok: bool)
      modifies this
      ensures View() == Apply(hash, fits, old(View()), Write(content, opens, writable))
      ensures ok <==> Succeeds(fits, old(View()), Write(content, opens, writable))
    {
      if !init {
        ok := LoadLastHash(opens);
        if !ok { return; }
      }
      var e := Event(content, lastHash, "");
      e := e.(hash := ComputeHash(hash, e));
      if !writable { return false; }
      file := Some((if file.Some? then file.value else []) + [Entry(e)]);
      lastHash := e.hash;
      return true;
    }
  }
}
