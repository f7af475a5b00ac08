/** Byte strings: lexicographic order as Go's `<` on strings and PostgreSQL's
    `memcmp` on uuid columns define it, and big-endian integers as
    `encoding/binary` reads them. */
module Bytes {

  type byte = x: int | 0 <= x < 256

  /** Lexicographic order; a proper prefix comes first. */
  predicate Less(a: seq<byte>, b: seq<byte>) {
    b != [] && (a == [] || a[0] < b[0] || (a[0] == b[0] && Less(a[1..], b[1..])))
  }

  lemma LessIrreflexive(a: seq<byte>)
    ensures !Less(a, a)
  {
  }

  lemma {:induction false} LessTransitive(a: seq<byte>, b: seq<byte>, c: seq<byte>)
    requires Less(a, b) && Less(b, c)
    ensures Less(a, c)
  {
    if a != [] && a[0] == b[0] && b[0] == c[0] {
      LessTransitive(a[1..], b[1..], c[1..]);
    }
  }

  lemma {:induction false} LessTotal(a: seq<byte>, b: seq<byte>)
    ensures a == b || Less(a, b) || Less(b, a)
  {
    if a != [] && b != [] && a[0] == b[0] {
      LessTotal(a[1..], b[1..]);
      assert a == [a[0]] + a[1..] && b == [b[0]] + b[1..];
    }
  }

  /** The first place where they differ decides; if there is none, the shorter comes first. */
  lemma {:induction false} LessIff(a: seq<byte>, b: seq<byte>)
    ensures Less(a, b) <==>
            exists k :: 0 <= k < |b| && k <= |a| && a[..k] == b[..k] && (k < |a| ==> a[k] < b[k])
  {
    if a != [] && b != [] && a[0] == b[0] {
      LessIff(a[1..], b[1..]);
      if k :| 0 <= k < |b| && k <= |a| && a[..k] == b[..k] && (k < |a| ==> a[k] < b[k]) {
        assert a[1..][..k - 1] == a[..k][1..] == b[..k][1..] == b[1..][..k - 1];
      }
      if k :| 0 <= k < |b[1..]| && k <= |a[1..]| && a[1..][..k] == b[1..][..k] && (k < |a[1..]| ==> a[1..][k] < b[1..][k]) {
        assert a[..k + 1] == [a[0]] + a[1..][..k] && b[..k + 1] == [b[0]] + b[1..][..k];
      }
    } else {
      assert a[..0] == b[..0];
      assert forall k | 0 < k <= |a| && k <= |b| && a[..k] == b[..k] :: a[..k][0] == b[..k][0];
    }
  }

  /** Equal-length strings compare as their heads do, then as their last bytes do. */
  lemma {:induction false} LessSnoc(a: seq<byte>, x: byte, b: seq<byte>, y: byte)
    requires |a| == |b|
    ensures Less(a + [x], b + [y]) <==> Less(a, b) || (a == b && x < y)
  {
    if a == [] {
      assert a + [x] == [x] && b + [y] == [y];
    } else {
      assert (a + [x])[1..] == a[1..] + [x] && (b + [y])[1..] == b[1..] + [y];
      LessSnoc(a[1..], x, b[1..], y);
      assert a == [a[0]] + a[1..] && b == [b[0]] + b[1..];
    }
  }

  /** 256 to the power n: how many values n bytes can hold. */
  function Span(n: nat): (r: nat)
    ensures r > 0
  {
    if n == 0 then 1 else 256 * Span(n - 1)
  }

  /** The big-endian reading of a byte string. */
  function Value(s: seq<byte>): nat {
    if s == [] then 0 else Value(s[..|s| - 1]) * 256 + s[|s| - 1]
  }

  /** The n-byte big-endian form of v. */
  function Big(v: nat, n: nat): (s: seq<byte>)
    ensures |s| == n
  {
    if n == 0 then [] else Big(v / 256, n - 1) + [v % 256]
  }

  /** Reading back a big-endian integer that fits. */
  lemma {:induction false} ValueOfBig(v: nat, n: nat)
    requires v < Span(n)
    ensures Value(Big(v, n)) == v
  {
    if n != 0 {
      ValueOfBig(v / 256, n - 1);
      assert Big(v, n)[..n - 1] == Big(v / 256, n - 1);
    }
  }

  /** On equal widths, byte order is numeric order. */
  lemma {:induction false} BigOrder(a: nat, b: nat, n: nat)
    requires a < Span(n) && b < Span(n)
    ensures Less(Big(a, n), Big(b, n)) <==> a < b
    ensures Big(a, n) == Big(b, n) <==> a == b
  {
    if n != 0 {
      BigOrder(a / 256, b / 256, n - 1);
      LessSnoc(Big(a / 256, n - 1), a % 256, Big(b / 256, n - 1), b % 256);
      ValueOfBig(a, n);
      ValueOfBig(b, n);
    } else {
      LessIrreflexive([]);
    }
  }
}

/** UUIDs as 128-bit integers with their 16-byte and textual forms (section 4
    of RFC 9562). The outbox orders ids as bytes in SQL and as text in Go. */
module Uuid {
  import opened Bytes

  /** A UUID is identified with the value of its 16 bytes. */
  type Id = v: nat | v < 0x1_0000_0000_0000_0000_0000_0000_0000_0000

  lemma IdSpan()
    ensures Span(16) == 0x1_0000_0000_0000_0000_0000_0000_0000_0000
  {
    assert Span(8) == 0x1_0000_0000_0000_0000;
    assert Span(12) == 0x1_0000_0000_0000_0000_0000_0000;
  }

  function Octets(id: Id): seq<byte> {
    Big(id, 16)
  }

  /** The character code of a lower-case hexadecimal digit. */
  function HexDigit(d: nat): byte
    requires d < 16
  {
    if d < 10 then 48 + d else 87 + d
  }

  const HYPHEN: byte := 45

  /** The text of octets i and later: two digits per octet, with a hyphen
      before octets 4, 6, 8 and 10. */
  function TextFrom(o: seq<byte>, i: nat): seq<byte>
    requires i <= |o|
    decreases |o| - i
  {
    if i == |o| then []
    else
      (if i in {4, 6, 8, 10} then [HYPHEN] else [])
      + [HexDigit(o[i] / 16), HexDigit(o[i] % 16)]
      + TextFrom(o, i + 1)
  }

  function Text(id: Id): seq<byte> {
    TextFrom(Octets(id), 0)
  }

  /** Where the digits of octet i begin. */
  function PlaceOf(i: nat): nat {
    2 * i + (if i >= 4 then 1 else 0) + (if i >= 6 then 1 else 0) + (if i >= 8 then 1 else 0) + (if i >= 10 then 1 else 0)
  }

  /** Where the text of octet i and later begins. */
  function TextStart(i: nat): nat {
    if i in {4, 6, 8, 10} then PlaceOf(i) - 1 else PlaceOf(i)
  }

  /** One octet of the text. */
  lemma TextStep(o: seq<byte>, i: nat)
    requires i < |o|
    ensures var n, text := TextStart(i + 1) - TextStart(i), TextFrom(o, i);
            && n == (if i in {4, 6, 8, 10} then 3 else 2) <= |text| && text[n..] == TextFrom(o, i + 1)
            && text[n - 2] == HexDigit(o[i] / 16) && text[n - 1] == HexDigit(o[i] % 16)
            && (n == 3 ==> text[0] == HYPHEN)
  {
    hide HexDigit;
  }

  lemma {:induction false} TextSkip(o: seq<byte>, k: nat)
    requires k <= |o|
    ensures TextStart(k) <= |TextFrom(o, 0)| && TextFrom(o, 0)[TextStart(k)..] == TextFrom(o, k)
  {
    if k > 0 {
      TextSkip(o, k - 1);
      TextStep(o, k - 1);
      hide TextFrom, HexDigit, TextStart;
    }
  }

  /** The text of a UUID: 36 characters, each octet as two lower-case hexadecimal
      digits, and hyphens at 8, 13, 18 and 23. */
  lemma TextLayout(id: Id, k: nat)
    requires k < 16
    ensures var text, o, place := Text(id), Big(id, 16)[k], PlaceOf(k);
            && |text| == 36
            && text[place] == "0123456789abcdef"[o / 16] as int && text[place + 1] == "0123456789abcdef"[o % 16] as int
            && (k in {4, 6, 8, 10} ==> text[place - 1] == '-' as int)
  {
    var text, o := Text(id), Octets(id);
    TextSkip(o, 16);
    TextSkip(o, k);
    TextStep(o, k);
    assert TextFrom(o, 16) == [];
    hide TextFrom, HexDigit;
    assert forall j | 0 <= j < |text[TextStart(k)..]| :: text[TextStart(k)..][j] == text[TextStart(k) + j];
    HexDigitIs(o[k] / 16);
    HexDigitIs(o[k] % 16);
  }

  lemma HexDigitIs(d: nat)
    requires d < 16
    ensures HexDigit(d) == "0123456789abcdef"[d] as int
  {
  }

  lemma LessSamePrefix(p: seq<byte>, a: seq<byte>, b: seq<byte>)
    ensures Less(p + a, p + b) <==> Less(a, b)
  {
    if p == [] {
      assert p + a == a && p + b == b;
    } else {
      assert (p + a)[1..] == p[1..] + a && (p + b)[1..] == p[1..] + b;
      LessSamePrefix(p[1..], a, b);
    }
  }

  /** Two digits compare as the octet they spell. */
  lemma LessOctet(x: byte, a: seq<byte>, y: byte, b: seq<byte>)
    ensures Less([HexDigit(x / 16), HexDigit(x % 16)] + a, [HexDigit(y / 16), HexDigit(y % 16)] + b)
       <==> x < y || (x == y && Less(a, b))
  {
    var s := [HexDigit(x / 16), HexDigit(x % 16)] + a;
    var t := [HexDigit(y / 16), HexDigit(y % 16)] + b;
    assert s[1..] == [HexDigit(x % 16)] + a && t[1..] == [HexDigit(y % 16)] + b;
    assert s[1..][1..] == a && t[1..][1..] == b;
    assert x == 16 * (x / 16) + x % 16 && y == 16 * (y / 16) + y % 16;
  }

  /** Strings compare as their first bytes do, then as what follows. */
  lemma LessFrom(a: seq<byte>, b: seq<byte>, i: nat)
    requires |a| == |b| && i < |a|
    ensures Less(a[i..], b[i..]) <==> a[i] < b[i] || (a[i] == b[i] && Less(a[i + 1..], b[i + 1..]))
  {
    assert a[i..][1..] == a[i + 1..] && b[i..][1..] == b[i + 1..];
  }

  /** Texts compare as their next octets do, then as what follows. */
  lemma TextFromLess(a: seq<byte>, b: seq<byte>, i: nat)
    requires |a| == |b| && i < |a|
    ensures Less(TextFrom(a, i), TextFrom(b, i)) <==>
            a[i] < b[i] || (a[i] == b[i] && Less(TextFrom(a, i + 1), TextFrom(b, i + 1)))
  {
    var p := if i in {4, 6, 8, 10} then [HYPHEN] else [];
    var da := [HexDigit(a[i] / 16), HexDigit(a[i] % 16)] + TextFrom(a, i + 1);
    var db := [HexDigit(b[i] / 16), HexDigit(b[i] % 16)] + TextFrom(b, i + 1);
    assert TextFrom(a, i) == p + da && TextFrom(b, i) == p + db;
    hide TextFrom, HexDigit, Less;
    LessSamePrefix(p, da, db);
    LessOctet(a[i], TextFrom(a, i + 1), b[i], TextFrom(b, i + 1));
  }

  lemma {:induction false} TextFromOrder(a: seq<byte>, b: seq<byte>, i: nat)
    requires |a| == |b| && i <= |a|
    ensures Less(TextFrom(a, i), TextFrom(b, i)) <==> Less(a[i..], b[i..])
    decreases |a| - i
  {
    if i < |a| {
      LessFrom(a, b, i);
      hide TextFrom, Less;
      TextFromLess(a, b, i);
      TextFromOrder(a, b, i + 1);
    } else {
      LessIrreflexive(a[i..]);
    }
  }

  /** The three orders on ids coincide: text order (used by
      publisherProgressReached), byte order (used by SQL) and numeric order. */
  lemma TextOrder(a: Id, b: Id)
    ensures Less(Text(a), Text(b)) <==> a < b
    ensures Less(Octets(a), Octets(b)) <==> a < b
    ensures Octets(a) == Octets(b) <==> a == b
  {
    IdSpan();
    BigOrder(a, b, 16);
    TextFromOrder(Octets(a), Octets(b), 0);
    assert Octets(a)[0..] == Octets(a) && Octets(b)[0..] == Octets(b);
  }
}
