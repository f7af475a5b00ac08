/** Keyset pagination over a slice sorted by (SortValue, ID). */
module Pagination {
  import opened Bytes

  datatype Item = Item(id: seq<byte>, sortValue: seq<byte>, body: string)
  datatype Cursor = Cursor(id: seq<byte>, sortValue: seq<byte>)

  /** A cursor as the client holds it: the empty string, or an opaque encoding
      that decodes faithfully. */
  datatype Token = Empty | Opaque(cursor: Cursor)

  const START := Cursor([], [])

  function Encode(c: Cursor): Token {
    if c == START then Empty else Opaque(c)
  }

  function Decode(t: Token): Cursor {
    if t.Empty? then START else t.cursor
  }

  function CursorOf(item: Item): Cursor {
    Cursor(item.id, item.sortValue)
  }

  datatype Page = Page(items: seq<Item>, next: Token, previous: Token, hasMore: bool)

  // ----- Order -----

  /** (SortValue, ID) order. */
  predicate Before(a: Cursor, b: Cursor) {
    Less(a.sortValue, b.sortValue) || (a.sortValue == b.sortValue && Less(a.id, b.id))
  }

  lemma BeforeTransitive(a: Cursor, b: Cursor, c: Cursor)
    requires Before(a, b) && Before(b, c)
    ensures Before(a, c)
  {
    if Less(a.sortValue, b.sortValue) && Less(b.sortValue, c.sortValue) {
      LessTransitive(a.sortValue, b.sortValue, c.sortValue);
    } else if a.sortValue == b.sortValue == c.sortValue {
      LessTransitive(a.id, b.id, c.id);
    }
  }

  /** The sort value decides, then the id; nothing else is between two cursors. */
  lemma BeforeDecides(a: Cursor, b: Cursor)
    ensures Less(a.sortValue, b.sortValue) ==> Before(a, b) && !Before(b, a)
    ensures a.sortValue == b.sortValue && Less(a.id, b.id) ==> Before(a, b) && !Before(b, a)
    ensures a == b || Before(a, b) || Before(b, a)
  {
    LessTotal(a.sortValue, b.sortValue);
    LessTotal(a.id, b.id);
    if Less(a.sortValue, b.sortValue) && Less(b.sortValue, a.sortValue) {
      LessTransitive(a.sortValue, b.sortValue, a.sortValue);
    }
    if Less(a.id, b.id) && Less(b.id, a.id) { LessTransitive(a.id, b.id, a.id); }
    LessIrreflexive(a.sortValue);
    LessIrreflexive(a.id);
  }

  lemma BeforeIrreflexive(a: Cursor)
    ensures !Before(a, a)
  {
    LessIrreflexive(a.sortValue);
    LessIrreflexive(a.id);
  }

  /** What a request with this cursor may return: everything, from the start. */
  predicate Follows(item: Item, c: Cursor) {
    c == START || Before(c, CursorOf(item))
  }

  /** Strictly sorted. */
  predicate Ordered(items: seq<Item>) {
    forall i, j | 0 <= i < j < |items| :: Before(CursorOf(items[i]), CursorOf(items[j]))
  }

  /** A first page that ends on an item with neither id nor sort value, with more
      to come: its next cursor is the empty one, which means that there is none. */
  predicate Stuck(items: seq<Item>, limit: int) {
    Limit(limit) == 1 && |items| > 1 && CursorOf(items[0]) == START
  }

  /** Only the first item of an ordered list can have the empty cursor. */
  lemma OnlyFirstIsEmpty(items: seq<Item>, k: nat)
    requires Ordered(items) && 0 < k < |items|
    ensures CursorOf(items[k]) != START
  {
    assert Before(CursorOf(items[0]), CursorOf(items[k]));
  }

  // ----- One page -----

  function Limit(limit: int): (n: nat)
    ensures n > 0
  {
    if limit <= 0 then 10 else limit
  }

  /** The first index from i on whose item follows the cursor, or the length. */
  function StartFrom(items: seq<Item>, c: Cursor, i: nat): (s: nat)
    requires i <= |items|
    ensures i <= s <= |items|
    ensures s < |items| ==> Follows(items[s], c)
    ensures forall k | i <= k < s :: !Follows(items[k], c)
    decreases |items| - i
  {
    if i == |items| || Follows(items[i], c) then i else StartFrom(items, c, i + 1)
  }

  function Start(items: seq<Item>, c: Cursor): nat {
    StartFrom(items, c, 0)
  }

  function Previous(items: seq<Item>, start: nat, limit: nat): Token
    requires start <= |items|
  {
    if start <= limit then Empty else Encode(CursorOf(items[start - limit - 1]))
  }

  /** The page that begins at an index. */
  function PageAt(items: seq<Item>, start: nat, limit: nat): Page
    requires start <= |items| && limit > 0
  {
    var hasMore := start + limit < |items|;
    var end := if hasMore then start + limit else |items|;
    Page(items[start..end],
         if hasMore then Encode(CursorOf(items[end - 1])) else Empty,
         Previous(items, start, limit), hasMore)
  }

  function Paginate(items: seq<Item>, c: Cursor, limit: int): Page {
    if c != START && Start(items, c) == |items| then Page([], Empty, Empty, false)
    else PageAt(items, Start(items, c), Limit(limit))
  }

  /** The first item that follows a cursor. */
  method FindStart(items: seq<Item>, cursor: Cursor) returns (found: bool, startIdx: nat)
    requires cursor != START
    ensures found <==> Start(items, cursor) < |items|
    ensures found ==> startIdx == Start(items, cursor) < |items|
    ensures found ==> || Less(cursor.sortValue, items[startIdx].sortValue)
                      || (items[startIdx].sortValue == cursor.sortValue && Less(cursor.id, items[startIdx].id))
    ensures forall k | 0 <= k < (if found then startIdx else |items|) ::
              && !Less(cursor.sortValue, items[k].sortValue)
              && (items[k].sortValue == cursor.sortValue ==> !Less(cursor.id, items[k].id))
  {
    hide Less;
    for i := 0 to |items|
      invariant Start(items, cursor) == StartFrom(items, cursor, i)
      invariant forall k | 0 <= k < i ::
                  && !Less(cursor.sortValue, items[k].sortValue)
                  && (items[k].sortValue == cursor.sortValue ==> !Less(cursor.id, items[k].id))
    {
      var sv, id := items[i].sortValue, items[i].id;
      if Less(cursor.sortValue, sv) || (sv == cursor.sortValue && Less(cursor.id, id)) { return true, i; }
    }
    return false, 0;
  }

  /** A page, field by field. */
  lemma PageIs(items: seq<Item>, c: Cursor, limit: int)
    ensures var n, s := if limit <= 0 then 10 else limit, Start(items, c);
            Paginate(items, c, limit) ==
            if s == |items| then Page([], Empty, Empty, false)
            else Page(if s + n < |items| then items[s..s + n] else items[s..],
                      if s + n < |items| then Encode(Cursor(items[s + n - 1].id, items[s + n - 1].sortValue)) else Empty,
                      if s > n then Encode(Cursor(items[s - n - 1].id, items[s - n - 1].sortValue)) else Empty,
                      s + n < |items|)
  {
    hide StartFrom, Follows, Encode;
    assert Start(items, START) == 0 by { StartOfStart(items); }
  }

  /** The page that starts there. */
  method PaginateSlice(items: seq<Item>, cursor: Cursor, limit: int) returns (page: Page)
    ensures page == Paginate(items, cursor, limit)
  {
    PageIs(items, cursor, limit);
    hide StartFrom, Follows, Encode, Paginate;
    var lim := if limit <= 0 then 10 else limit;
    var startIdx := 0;
    assert Start(items, START) == 0 by { StartOfStart(items); }
    if cursor.id != [] || cursor.sortValue != [] {
      var found;
      found, startIdx := FindStart(items, cursor);
      if !found { return Page([], Empty, Empty, false); }
    }
    var endIdx, hasMore := startIdx + lim, true;
    if endIdx >= |items| { endIdx, hasMore := |items|, false; }
    var pageItems := items[startIdx..endIdx];
    var next := Empty;
    if |pageItems| > 0 && hasMore { next := Encode(CursorOf(pageItems[|pageItems| - 1])); }
    var previous := Empty;
    if startIdx > 0 {
      var prevStart := startIdx - lim;
      if prevStart > 0 { previous := Encode(CursorOf(items[prevStart - 1])); }
    }
    return Page(pageItems, next, previous, hasMore);
  }

  lemma StartOfStart(items: seq<Item>)
    ensures Start(items, START) == 0
  {
  }

  /** In an ordered list, the items that follow a cursor are those from its start on. */
  lemma FollowsFromStart(items: seq<Item>, c: Cursor, i: nat)
    requires Ordered(items) && i < |items|
    ensures Follows(items[i], c) <==> Start(items, c) <= i
  {
    var s := Start(items, c);
    if s < i && c != START { BeforeTransitive(c, CursorOf(items[s]), CursorOf(items[i])); }
  }

  /** The cursor of an item starts the list right after it. */
  lemma StartAfter(items: seq<Item>, k: nat)
    requires Ordered(items) && k < |items| && CursorOf(items[k]) != START
    ensures Start(items, CursorOf(items[k])) == k + 1
  {
    var c := CursorOf(items[k]);
    BeforeIrreflexive(c);
    FollowsFromStart(items, c, k);
    if k + 1 < |items| { FollowsFromStart(items, c, k + 1); }
  }

  // ----- Walks over a changing list -----

  /** The pages a client sees that follows next cursors to the end, each page
      taken from the list as it is at that moment. */
  predicate IsWalk(versions: seq<seq<Item>>, c: Cursor, limit: int, pages: seq<Page>)
    decreases |pages|
  {
    && |versions| == |pages| > 0
    && pages[0] == Paginate(versions[0], c, limit)
    && if pages[0].next.Empty? then |pages| == 1
       else IsWalk(versions[1..], Decode(pages[0].next), limit, pages[1..])
  }

  function Collected(pages: seq<Page>): seq<Item> {
    if pages == [] then [] else pages[0].items + Collected(pages[1..])
  }

  predicate Has(items: seq<Item>, key: Cursor) {
    exists i :: 0 <= i < |items| && CursorOf(items[i]) == key
  }

  /** Every item after the cursor that is there throughout has been returned. */
  ghost predicate Complete(versions: seq<seq<Item>>, c: Cursor, pages: seq<Page>) {
    forall key | (c == START || Before(c, key)) && (forall v | v in versions :: Has(v, key)) :: Has(Collected(pages), key)
  }

  /** A walk returns items in strictly increasing order, all after its cursor, so
      none twice; and it returns every item that is there throughout exactly when
      its first page is not stuck. */
  lemma WalkIsComplete(versions: seq<seq<Item>>, c: Cursor, limit: int, pages: seq<Page>)
    requires IsWalk(versions, c, limit, pages) && forall v | v in versions :: Ordered(v)
    ensures Ordered(Collected(pages))
    ensures forall i | 0 <= i < |Collected(pages)| :: Follows(Collected(pages)[i], c)
    ensures Complete(versions, c, pages) <==> !(c == START && Stuck(versions[0], limit))
  {
    if c == START && Stuck(versions[0], limit) {
      var items := versions[0];
      assert items in versions;
      assert pages[1..] == [] && pages[0].items == [items[0]] && Collected(pages) == [items[0]];
      assert forall v | v in versions :: v == items;
      var key := CursorOf(items[1]);
      OnlyFirstIsEmpty(items, 1);
      assert Has(items, key) && !Has(Collected(pages), key);
    } else {
      WalkRest(versions, c, limit, pages);
    }
  }

  lemma {:induction false} WalkRest(versions: seq<seq<Item>>, c: Cursor, limit: int, pages: seq<Page>)
    requires IsWalk(versions, c, limit, pages) && forall v | v in versions :: Ordered(v)
    requires !(c == START && Stuck(versions[0], limit))
    ensures Ordered(Collected(pages))
    ensures forall i | 0 <= i < |Collected(pages)| :: Follows(Collected(pages)[i], c)
    ensures Complete(versions, c, pages)
    decreases |pages|
  {
    var items, page := versions[0], pages[0];
    assert items in versions;
    PageFollows(items, c, limit);
    if page.next.Empty? {
      assert pages[1..] == [] && Collected(pages) == page.items + [] == page.items;
      forall key | (c == START || Before(c, key)) && (forall v | v in versions :: Has(v, key))
        ensures Has(Collected(pages), key)
      {
        PageHas(items, c, limit, key);
      }
    } else {
      var last, rest := Decode(page.next), Collected(pages[1..]);
      assert forall v | v in versions[1..] :: v in versions;
      WalkRest(versions[1..], last, limit, pages[1..]);
      Joined(page.items, last, rest, c);
      forall key | (c == START || Before(c, key)) && (forall v | v in versions :: Has(v, key))
        ensures Has(Collected(pages), key)
      {
        PageHas(items, c, limit, key);
        if Has(page.items, key) { HasLeft(page.items, rest, key); } else { HasRight(page.items, rest, key); }
      }
    }
  }

  lemma HasLeft(a: seq<Item>, b: seq<Item>, key: Cursor)
    requires Has(a, key)
    ensures Has(a + b, key)
  {
    var i :| 0 <= i < |a| && CursorOf(a[i]) == key;
    assert (a + b)[i] == a[i];
  }

  lemma HasRight(a: seq<Item>, b: seq<Item>, key: Cursor)
    requires Has(b, key)
    ensures Has(a + b, key)
  {
    var i :| 0 <= i < |b| && CursorOf(b[i]) == key;
    assert (a + b)[|a| + i] == b[i];
  }

  lemma SliceOrdered(items: seq<Item>, i: nat, j: nat)
    requires Ordered(items) && i <= j <= |items|
    ensures Ordered(items[i..j])
  {
    hide Before;
  }

  /** A page with more to come has a next cursor, unless it is stuck. */
  lemma PageEnds(items: seq<Item>, c: Cursor, limit: int)
    requires Ordered(items) && !(c == START && Stuck(items, limit)) && Paginate(items, c, limit).hasMore
    ensures CursorOf(items[Start(items, c) + Limit(limit) - 1]) != START
  {
    var end := Start(items, c) + Limit(limit);
    if end > 1 {
      OnlyFirstIsEmpty(items, end - 1);
    } else if c != START {
      assert Follows(items[0], c);
    }
  }

  /** A page is ordered, after its cursor, and ends at its next cursor. */
  lemma PageFollows(items: seq<Item>, c: Cursor, limit: int)
    requires Ordered(items) && !(c == START && Stuck(items, limit))
    ensures var page := Paginate(items, c, limit);
            && Ordered(page.items)
            && (forall i | 0 <= i < |page.items| :: Follows(page.items[i], c))
            && (page.hasMore <==> !page.next.Empty?)
            && (!page.next.Empty? ==> && page.items != [] && page.next == Opaque(CursorOf(page.items[|page.items| - 1]))
                                      && Decode(page.next) != START)
  {
    var page, s := Paginate(items, c, limit), Start(items, c);
    PageShape(items, c, limit);
    if page.hasMore { PageEnds(items, c, limit); }
    hide Before, Paginate, StartFrom, Stuck;
    SliceOrdered(items, s, s + |page.items|);
    forall i | 0 <= i < |page.items| ensures Follows(page.items[i], c) {
      FollowsFromStart(items, c, s + i);
    }
  }

  /** A page is a slice of the list, with the cursor of its last item if there is more. */
  lemma PageShape(items: seq<Item>, c: Cursor, limit: int)
    ensures var page, s, n := Paginate(items, c, limit), Start(items, c), Limit(limit);
            && s + |page.items| <= |items| && page.items == items[s..s + |page.items|]
            && (page.hasMore ==> |page.items| == n && page.next == Encode(CursorOf(items[s + n - 1])))
            && (!page.hasMore ==> page.next.Empty?)
  {
    hide StartFrom, Follows;
  }

  /** A key of the list after the cursor is on the page, or after the page. */
  lemma PageHas(items: seq<Item>, c: Cursor, limit: int, key: Cursor)
    requires Ordered(items) && !(c == START && Stuck(items, limit)) && Has(items, key) && (c == START || Before(c, key))
    ensures var page := Paginate(items, c, limit);
            Has(page.items, key) || (!page.next.Empty? && Before(Decode(page.next), key))
  {
    var page, s := Paginate(items, c, limit), Start(items, c);
    var i :| 0 <= i < |items| && CursorOf(items[i]) == key;
    FollowsFromStart(items, c, i);
    if i < s + |page.items| { assert page.items[i - s] == items[i]; } else { PageEnds(items, c, limit); }
  }

  /** Ordered pieces join into an ordered whole. */
  lemma Joined(a: seq<Item>, last: Cursor, b: seq<Item>, c: Cursor)
    requires Ordered(a) && Ordered(b) && a != [] && last == CursorOf(a[|a| - 1]) != START
    requires forall i | 0 <= i < |b| :: Follows(b[i], last)
    requires forall i | 0 <= i < |a| :: Follows(a[i], c)
    ensures Ordered(a + b) && forall i | 0 <= i < |a + b| :: Follows((a + b)[i], c)
  {
    forall i, j | 0 <= i < |a| && 0 <= j < |b| ensures Before(CursorOf(a[i]), CursorOf(b[j])) {
      if i < |a| - 1 { BeforeTransitive(CursorOf(a[i]), last, CursorOf(b[j])); }
    }
    forall j | 0 <= j < |b| ensures Follows(b[j], c) {
      if c != START { BeforeTransitive(c, last, CursorOf(b[j])); }
    }
  }

  // ----- Walks over a fixed list -----

  /** The walk over an unchanging list; it ends because each page moves its start on. */
  function FixedWalk(items: seq<Item>, c: Cursor, limit: int): seq<Page>
    requires Ordered(items)
    decreases |items| - Start(items, c)
  {
    var page := Paginate(items, c, limit);
    if page.next.Empty? then [page]
    else
      var end := Start(items, c) + Limit(limit);
      StartAfter(items, end - 1);
      [page] + FixedWalk(items, Decode(page.next), limit)
  }

  /** The pages concatenate to the items, and all but the last are full. */
  predicate Covers(pages: seq<Page>, items: seq<Item>, limit: int) {
    Collected(pages) == items && forall k | 0 <= k < |pages| - 1 :: |pages[k].items| == Limit(limit)
  }

  lemma CoversCons(page: Page, pages: seq<Page>, items: seq<Item>, limit: int)
    requires Covers(pages, items, limit) && |page.items| == Limit(limit)
    ensures Covers([page] + pages, page.items + items, limit)
  {
    assert ([page] + pages)[1..] == pages;
  }

  lemma CoversOne(page: Page, limit: int)
    ensures Covers([page], page.items, limit)
  {
    assert [page][1..] == [] && page.items + [] == page.items;
  }

  /** A walk with more to come goes on where its first page ends. */
  lemma FixedWalkGoesOn(items: seq<Item>, c: Cursor, limit: int)
    requires Ordered(items) && !(c == START && Stuck(items, limit)) && Paginate(items, c, limit).hasMore
    ensures var page, s := Paginate(items, c, limit), Start(items, c);
            var end := s + Limit(limit);
            && end < |items| && page.items == items[s..end] && !page.next.Empty?
            && Decode(page.next) != START && Start(items, Decode(page.next)) == end
            && FixedWalk(items, c, limit) == [page] + FixedWalk(items, Decode(page.next), limit)
  {
    PageEnds(items, c, limit);
    StartAfter(items, Start(items, c) + Limit(limit) - 1);
    hide StartFrom, Before;
  }

  lemma FixedWalkEnds(items: seq<Item>, c: Cursor, limit: int)
    requires Ordered(items) && !Paginate(items, c, limit).hasMore
    ensures FixedWalk(items, c, limit) == [Paginate(items, c, limit)]
    ensures Paginate(items, c, limit).items == items[Start(items, c)..]
  {
  }

  lemma {:induction false} FixedWalkCovers(items: seq<Item>, c: Cursor, limit: int)
    requires Ordered(items) && !(c == START && Stuck(items, limit))
    ensures Covers(FixedWalk(items, c, limit), items[Start(items, c)..], limit)
    decreases |items| - Start(items, c)
  {
    var page, s := Paginate(items, c, limit), Start(items, c);
    if page.hasMore {
      FixedWalkGoesOn(items, c, limit);
      hide Paginate, Covers, FixedWalk, StartFrom, Before, Ordered, Stuck;
      FixedWalkCovers(items, Decode(page.next), limit);
      var end := s + Limit(limit);
      CoversCons(page, FixedWalk(items, Decode(page.next), limit), items[end..], limit);
      assert items[s..end] + items[end..] == items[s..];
    } else {
      FixedWalkEnds(items, c, limit);
      CoversOne(page, limit);
    }
  }

  /** Its pages concatenate to the list from its start exactly when the first
      page is not stuck; all but the last are full in any case. */
  lemma FixedWalkIsTheList(items: seq<Item>, c: Cursor, limit: int)
    requires Ordered(items)
    ensures Collected(FixedWalk(items, c, limit)) == items[Start(items, c)..] <==> !(c == START && Stuck(items, limit))
    ensures forall k | 0 <= k < |FixedWalk(items, c, limit)| - 1 :: |FixedWalk(items, c, limit)[k].items| == Limit(limit)
  {
    if c == START && Stuck(items, limit) {
      assert FixedWalk(items, c, limit)[1..] == [];
      assert Collected(FixedWalk(items, c, limit)) == [items[0]];
    } else {
      FixedWalkCovers(items, c, limit);
    }
  }

  /** The previous cursor of a page leads to the items just before it exactly when
      a whole page of them exists and the item before those has a cursor; otherwise
      it leads to the first page. The first page itself has none. */
  lemma PreviousIff(items: seq<Item>, c: Cursor, limit: int)
    requires Ordered(items) && Start(items, c) < |items|
    ensures var n, s, page := Limit(limit), Start(items, c), Paginate(items, c, limit);
            var back := Paginate(items, Decode(page.previous), limit);
            && (s == 0 ==> page.previous == Empty)
            && (s > 0 ==> (back.items == items[if s >= n then s - n else 0..s] <==>
                           s >= n && !(s == n + 1 && CursorOf(items[0]) == START)))
            && (s < n ==> back.items == Paginate(items, START, limit).items)
  {
    var n, s := Limit(limit), Start(items, c);
    assert Start(items, START) == 0;
    if s > n + 1 { OnlyFirstIsEmpty(items, s - n - 1); }
    if s > n && CursorOf(items[s - n - 1]) != START {
      StartAfter(items, s - n - 1);
    } else if s > n {
      OnlyFirstIsEmpty(items, 1);
      var back := Paginate(items, START, limit);
      assert back.items[0] == items[0] && items[1..s][0] == items[1];
    }
  }

  /** A stuck walk stops after one item although there are more. */
  lemma EmptyKeyEndsWalk(items: seq<Item>, limit: int)
    requires Ordered(items) && Stuck(items, limit)
    ensures var page := Paginate(items, START, limit);
            page.items == [items[0]] && page.hasMore && page.next.Empty?
            && FixedWalk(items, START, limit) == [page]
  {
  }
}
