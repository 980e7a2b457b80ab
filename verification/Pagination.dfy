/** Keyset pagination over the primary key, one page at a time. */
module Pagination {
  import opened Basics
  import opened Predicates
  import opened Abilities
  import opened Repository

  datatype Page = Page(items: seq<Row>, nextCursor: Option<int>, hasMore: bool)

  function Clamp(first: int): (limit: int)
    ensures 1 <= limit <= 100
    ensures first <= 1 ==> limit == 1
    ensures first >= 100 ==> limit == 100
    ensures 1 <= first <= 100 ==> limit == first
  {
    if first < 1 then 1 else if first > 100 then 100 else first
  }

  /** `PageParams::limit`; the repository clamps again, to no effect. */
  function Limit(first: Option<int>): (limit: int)
    ensures Clamp(limit) == limit
    ensures first.Some? && 1 <= first.value <= 100 ==> limit == first.value
    ensures first.Some? && first.value < 1 ==> limit == 1
    ensures first.Some? && first.value > 100 ==> limit == 100
    ensures first.None? ==> limit == 20
  {
    Clamp(if first.Some? then first.value else 20)
  }

  predicate After(after: Option<int>, k: int) {
    after.Some? ==> k > after.value
  }

  function KeysAfter(t: Table, after: Option<int>): set<int> {
    set k | k in t && After(after, k)
  }

  ghost predicate Increasing(s: seq<int>) {
    forall i, j :: 0 <= i < j < |s| ==> s[i] < s[j]
  }

  /** `ORDER BY` the key: the one increasing listing of a set. */
  ghost predicate Lists(s: seq<int>, keys: set<int>) {
    Increasing(s) && forall k :: k in s <==> k in keys
  }

  function RowsAt(t: Table, keys: seq<int>): seq<Row>
    requires forall i :: 0 <= i < |keys| ==> keys[i] in t
  {
    seq(|keys|, i requires 0 <= i < |keys| => t[keys[i]])
  }

  ghost function Keys(rows: seq<Row>): seq<int> {
    seq(|rows|, i requires 0 <= i < |rows| => rows[i].id)
  }

  lemma TailLists(a: seq<int>, keys: set<int>)
    requires Lists(a, keys) && a != []
    ensures Lists(a[1..], keys - {a[0]})
  {
    assert a == [a[0]] + a[1..];
    forall k ensures k in a[1..] <==> k in keys && k != a[0] {
      if k in a[1..] {
        var i :| 0 <= i < |a[1..]| && a[1..][i] == k;
        assert a[i + 1] == k;
      }
    }
  }

  lemma {:induction false} ListingIsUnique(a: seq<int>, b: seq<int>, keys: set<int>)
    requires Lists(a, keys) && Lists(b, keys)
    ensures a == b
  {
    forall i | 0 <= i < |a| ensures a[i] in b { assert a[i] in a; }
    forall i | 0 <= i < |b| ensures b[i] in a { assert b[i] in b; }
    var k := if |b| > 0 then b[0] else 0;
    assert |b| > 0 ==> k in a;
    if a != [] {
      assert a[0] in b && b[0] in a;
      var i :| 0 <= i < |b| && b[i] == a[0];
      var j :| 0 <= j < |a| && a[j] == b[0];
      TailLists(a, keys);
      TailLists(b, keys);
      ListingIsUnique(a[1..], b[1..], keys - {a[0]});
    }
  }

  method Least(keys: set<int>) returns (m: int)
    requires keys != {}
    ensures m in keys && forall k :: k in keys ==> m <= k
  {
    m := Pick(keys);
    var rest := keys - {m};
    while rest != {}
      invariant m in keys && rest <= keys && forall k :: k in keys ==> k in rest || m <= k
    {
      var k := Pick(rest);
      rest := rest - {k};
      if k < m {
        m := k;
      }
    }
  }

  /** The database's ordered scan, by repeated selection of the least key. */
  method OrderedScan(keys: set<int>) returns (s: seq<int>)
    ensures Lists(s, keys)
  {
    s := [];
    var rest := keys;
    while rest != {}
      invariant rest <= keys && Lists(s, keys - rest)
      invariant forall i, k :: 0 <= i < |s| && k in rest ==> s[i] < k
    {
      var least := Least(rest);
      rest := rest - {least};
      s := s + [least];
    }
  }

  /** The page of `t` after the cursor: the first rows of the ordered remainder, and a cursor exactly
      when the remainder goes on. */
  ghost predicate IsPage(t: Table, first: int, after: Option<int>, page: Page) {
    && Increasing(Keys(page.items))
    && (forall i :: 0 <= i < |page.items| ==>
          page.items[i].id in KeysAfter(t, after) && page.items[i] == t[page.items[i].id])
    && |page.items| <= Clamp(first)
    && (page.hasMore ==> |page.items| == Clamp(first))
    && (page.hasMore <==> page.nextCursor.Some?)
    && (page.hasMore ==> page.nextCursor.value == page.items[|page.items| - 1].id)
    && (forall k :: k in KeysAfter(t, after) && k !in Keys(page.items)
          ==> page.hasMore && k > page.nextCursor.value)
    && (page.hasMore ==> exists k :: k in KeysAfter(t, after) && k > page.nextCursor.value)
  }

  lemma PrefixOfListing(t: Table, after: Option<int>, ordered: seq<int>, items: seq<Row>)
    requires WellKeyed(t) && Lists(ordered, KeysAfter(t, after))
    requires |items| <= |ordered|
    requires forall i :: 0 <= i < |items| ==> ordered[i] in t && items[i] == t[ordered[i]]
    ensures Keys(items) == ordered[..|items|]
    ensures forall k :: k in KeysAfter(t, after) && k !in Keys(items)
              ==> |items| < |ordered| && (items != [] ==> k > items[|items| - 1].id)
  {
    var ks := Keys(items);
    assert forall i :: 0 <= i < |items| ==> ks[i] == ordered[i] && ks[i] in ks;
    forall k | k in KeysAfter(t, after) && k !in Keys(items)
      ensures |items| < |ordered| && (items != [] ==> k > items[|items| - 1].id)
    {
      assert k in ordered;
      var i :| 0 <= i < |ordered| && ordered[i] == k;
      assert i >= |items|;
    }
  }

  /** `Repo::page`: fetch one row more than asked to learn whether there is a further page. */
  method FetchPage(t: Table, first: int, after: Option<int>) returns (page: Page)
    requires WellKeyed(t)
    ensures IsPage(t, first, after, page)
  {
    var limit := Clamp(first);
    var ordered := OrderedScan(KeysAfter(t, after));
    forall i | 0 <= i < |ordered| ensures ordered[i] in KeysAfter(t, after) {
      assert ordered[i] in ordered;
    }
    var fetched := ordered[..if |ordered| < limit + 1 then |ordered| else limit + 1];
    var items := RowsAt(t, fetched);
    var hasMore := |items| > limit;
    if |items| > limit {
      items := items[..limit];
    }
    var nextCursor := None;
    if hasMore {
      nextCursor := Some(items[|items| - 1].id);
    }
    page := Page(items, nextCursor, hasMore);
    PrefixOfListing(t, after, ordered, items);
    if hasMore {
      assert ordered[limit] in KeysAfter(t, after) && ordered[limit] > nextCursor.value;
    }
  }

  /** The service's `page`: only the caller's read scope is paged. */
  method ServicePage(store: Store, c: Caller, first: int, after: Option<int>) returns (page: Page)
    requires WellKeyed(store.rows)
    ensures IsPage(Scoped(store.rows, c, Read), first, after, page)
    ensures Trusted(c) ==> forall row :: row in page.items ==>
              row.id in store.rows && store.rows[row.id] == row && Accessible(c, Read, row)
  {
    var readable := store.All(c);
    page := FetchPage(readable, first, after);
    assert forall i :: 0 <= i < |page.items| ==> page.items[i].id in readable;
  }

  // ---------------------------------------------------------------- walks

  /** One fetch of a walk: the table the caller could read at that moment, the page size it asked
      for, and the page it was given. */
  datatype Fetch = Fetch(readable: Table, first: int, page: Page)

  /** A client following `nextCursor` from `after` over a table that may change between fetches. */
  ghost predicate IsWalk(w: seq<Fetch>, after: Option<int>) {
    w != [] ==>
      && WellKeyed(w[0].readable) && IsPage(w[0].readable, w[0].first, after, w[0].page)
      && (|w| > 1 ==> w[0].page.hasMore)
      && IsWalk(w[1..], w[0].page.nextCursor)
  }

  /** The client stopped because it was told there was nothing more. */
  ghost predicate Complete(w: seq<Fetch>) {
    w != [] && !w[|w| - 1].page.hasMore
  }

  ghost function Emitted(w: seq<Fetch>): seq<Row> {
    if w == [] then [] else w[0].page.items + Emitted(w[1..])
  }

  ghost predicate Throughout(w: seq<Fetch>, k: int) {
    forall i :: 0 <= i < |w| ==> k in w[i].readable
  }

  /** Whatever happens to the table between fetches, the keys emitted only ever grow: no row
      identity is emitted twice. */
  lemma {:induction false} WalkIncreases(w: seq<Fetch>, after: Option<int>)
    requires IsWalk(w, after)
    ensures Increasing(Keys(Emitted(w)))
    ensures forall i :: 0 <= i < |Emitted(w)| ==> After(after, Emitted(w)[i].id)
  {
    if w != [] {
      var page, rest := w[0].page, w[1..];
      WalkIncreases(rest, page.nextCursor);
      var head, tail := page.items, Emitted(rest);
      assert Keys(Emitted(w)) == Keys(head) + Keys(tail);
      forall i, j | 0 <= i < |head| && 0 <= j < |tail| ensures Keys(head)[i] < Keys(tail)[j] {
        assert rest != [] && page.hasMore;
        assert Keys(head)[i] <= Keys(head)[|head| - 1];
        assert After(page.nextCursor, tail[j].id);
      }
      forall i | 0 <= i < |Emitted(w)| ensures After(after, Emitted(w)[i].id) {
        if i >= |head| {
          assert After(page.nextCursor, tail[i - |head|].id);
        }
      }
    }
  }

  /** A row readable throughout a completed walk is emitted. */
  lemma {:induction false} WalkEmitsStableRows(w: seq<Fetch>, after: Option<int>, k: int)
    requires IsWalk(w, after) && Complete(w) && Throughout(w, k) && After(after, k)
    ensures k in Keys(Emitted(w))
  {
    var page, rest := w[0].page, w[1..];
    assert Keys(Emitted(w)) == Keys(page.items) + Keys(Emitted(rest));
    if k !in Keys(page.items) {
      assert k in KeysAfter(w[0].readable, after);
      assert |w| > 1;
      WalkEmitsStableRows(rest, page.nextCursor, k);
    }
  }

  /** Stable rows are emitted exactly once, and nothing is emitted that was not readable when its
      page was fetched. */
  lemma PaginationUnderChange(w: seq<Fetch>, k: int)
    requires IsWalk(w, None) && Complete(w) && Throughout(w, k)
    ensures exists i :: 0 <= i < |Emitted(w)| && Emitted(w)[i].id == k
                        && forall j :: 0 <= j < |Emitted(w)| && Emitted(w)[j].id == k ==> j == i
  {
    WalkIncreases(w, None);
    WalkEmitsStableRows(w, None, k);
    var ks := Keys(Emitted(w));
    var i :| 0 <= i < |ks| && ks[i] == k;
    forall j | 0 <= j < |Emitted(w)| && Emitted(w)[j].id == k ensures j == i {
      assert ks[j] == k;
    }
  }

  lemma {:induction false} EmittedWasReadable(w: seq<Fetch>, after: Option<int>, i: nat)
    requires IsWalk(w, after) && i < |Emitted(w)|
    ensures exists n :: 0 <= n < |w| && Emitted(w)[i].id in w[n].readable
                        && w[n].readable[Emitted(w)[i].id] == Emitted(w)[i]
  {
    var items := w[0].page.items;
    if i < |items| {
      assert w[0].readable[items[i].id] == items[i];
    } else {
      EmittedWasReadable(w[1..], w[0].page.nextCursor, i - |items|);
      var n :| 0 <= n < |w[1..]| && Emitted(w[1..])[i - |items|].id in w[1..][n].readable
               && w[1..][n].readable[Emitted(w[1..])[i - |items|].id] == Emitted(w[1..])[i - |items|];
      assert w[n + 1] == w[1..][n];
    }
  }

  // ---------------------------------------------------------------- a fixed table

  ghost predicate Fixed(w: seq<Fetch>, t: Table, first: int) {
    forall i :: 0 <= i < |w| ==> w[i].readable == t && w[i].first == first
  }

  ghost function RowsOf(t: Table, listing: seq<int>): seq<Row>
    requires Lists(listing, t.Keys)
  {
    assert forall i :: 0 <= i < |listing| ==> listing[i] in listing;
    RowsAt(t, listing)
  }

  /** On a fixed table a completed walk emits the readable rows, ascending by key, each once. */
  lemma FixedTableComplete(w: seq<Fetch>, t: Table, first: int, listing: seq<int>)
    requires IsWalk(w, None) && Complete(w) && Fixed(w, t, first) && WellKeyed(t) && Lists(listing, t.Keys)
    ensures Emitted(w) == RowsOf(t, listing)
  {
    WalkIncreases(w, None);
    var ks := Keys(Emitted(w));
    forall k ensures k in ks <==> k in t.Keys {
      if k in t.Keys {
        assert Throughout(w, k);
        WalkEmitsStableRows(w, None, k);
      }
      if k in ks {
        var i :| 0 <= i < |ks| && ks[i] == k;
        EmittedWasReadable(w, None, i);
      }
    }
    ListingIsUnique(ks, listing, t.Keys);
    forall i | 0 <= i < |Emitted(w)| ensures Emitted(w)[i] == t[listing[i]] {
      EmittedWasReadable(w, None, i);
      assert ks[i] == listing[i];
    }
    assert forall i :: 0 <= i < |listing| ==> listing[i] in listing;
  }

  method WalkFrom(t: Table, first: int, after: Option<int>) returns (out: seq<Row>, ghost w: seq<Fetch>)
    requires WellKeyed(t)
    ensures IsWalk(w, after) && Complete(w) && Fixed(w, t, first) && out == Emitted(w)
    decreases KeysAfter(t, after)
  {
    var page := FetchPage(t, first, after);
    out := page.items;
    w := [Fetch(t, first, page)];
    if page.hasMore {
      var last := page.items[|page.items| - 1];
      assert last.id in KeysAfter(t, after) && last.id !in KeysAfter(t, page.nextCursor);
      var rest;
      ghost var v;
      rest, v := WalkFrom(t, first, page.nextCursor);
      out := out + rest;
      assert ([Fetch(t, first, page)] + v)[1..] == v;
      w := w + v;
    } else {
      assert w[1..] == [];
    }
  }

  /** The client loop terminates for any page size, clamped or not, with every readable row,
      ascending by key and each once. */
  method WalkAll(t: Table, first: int) returns (out: seq<Row>, ghost w: seq<Fetch>)
    requires WellKeyed(t)
    ensures IsWalk(w, None) && Complete(w) && Fixed(w, t, first) && out == Emitted(w)
    ensures forall listing :: Lists(listing, t.Keys) ==> out == RowsOf(t, listing)
    ensures Lists(Keys(out), t.Keys)
  {
    out, w := WalkFrom(t, first, None);
    forall listing | Lists(listing, t.Keys) ensures out == RowsOf(t, listing) {
      FixedTableComplete(w, t, first, listing);
    }
    var listing := OrderedScan(t.Keys);
    FixedTableComplete(w, t, first, listing);
    assert forall i :: 0 <= i < |listing| ==> listing[i] in listing;
    assert Keys(out) == listing;
  }

  /** Every page but the last holds exactly the clamped limit. */
  lemma {:induction false} FullPages(w: seq<Fetch>, after: Option<int>, n: nat)
    requires IsWalk(w, after) && n + 1 < |w|
    ensures |w[n].page.items| == Clamp(w[n].first)
  {
    if n > 0 {
      FullPages(w[1..], w[0].page.nextCursor, n - 1);
      assert w[1..][n - 1] == w[n];
    }
  }

  // ---------------------------------------------------------------- read independence

  /** After a common prefix neither page can skip the other's next key. */
  lemma NotBelow(t: Table, first: int, after: Option<int>, p: Page, q: Page, n: nat)
    requires IsPage(t, first, after, p) && IsPage(t, first, after, q) && n < |p.items| && n < |q.items|
    requires p.items[..n] == q.items[..n]
    ensures q.items[n].id <= p.items[n].id
  {
    var k, ps, qs := p.items[n].id, Keys(p.items), Keys(q.items);
    assert ps[n] == k && qs[n] == q.items[n].id;
    forall i | 0 <= i < n ensures qs[i] < k {
      assert p.items[..n][i] == q.items[..n][i];
      assert ps[i] < ps[n];
    }
    if k in qs {
      var i :| 0 <= i < |qs| && qs[i] == k;
      assert i >= n;
    } else {
      assert qs[|qs| - 1] == q.nextCursor.value;
    }
  }

  lemma {:induction false} PagePrefix(t: Table, first: int, after: Option<int>, p: Page, q: Page, n: nat)
    requires WellKeyed(t) && IsPage(t, first, after, p) && IsPage(t, first, after, q) && n <= |p.items| <= |q.items|
    ensures p.items[..n] == q.items[..n]
  {
    if n > 0 {
      PagePrefix(t, first, after, p, q, n - 1);
      NotBelow(t, first, after, p, q, n - 1);
      NotBelow(t, first, after, q, p, n - 1);
      assert p.items[n - 1].id == q.items[n - 1].id;
      assert p.items[n - 1] == t[p.items[n - 1].id] == q.items[n - 1];
      assert p.items[..n] == p.items[..n - 1] + [p.items[n - 1]];
      assert q.items[..n] == q.items[..n - 1] + [q.items[n - 1]];
    }
  }

  lemma MoreIsForced(t: Table, first: int, after: Option<int>, p: Page, q: Page)
    requires IsPage(t, first, after, p) && IsPage(t, first, after, q) && p.items == q.items
    ensures p.hasMore ==> q.hasMore
  {
    if p.hasMore {
      var k :| k in KeysAfter(t, after) && k > p.nextCursor.value;
      var ks := Keys(q.items);
      assert forall i :: 0 <= i < |ks| ==> ks[i] <= ks[|ks| - 1];
    }
  }

  lemma ShorterPage(t: Table, first: int, after: Option<int>, p: Page, q: Page)
    requires WellKeyed(t) && IsPage(t, first, after, p) && IsPage(t, first, after, q) && |p.items| <= |q.items|
    ensures p == q
  {
    PagePrefix(t, first, after, p, q, |p.items|);
    assert p.items == q.items[..|p.items|];
    if |p.items| < |q.items| {
      var k := q.items[|p.items|].id;
      var qs := Keys(q.items);
      assert qs[|p.items|] == k;
      forall i | 0 <= i < |p.items| ensures Keys(p.items)[i] < k {
        assert qs[i] < qs[|p.items|] && p.items[i] == q.items[i];
      }
    }
    assert p.items == q.items;
    MoreIsForced(t, first, after, p, q);
    MoreIsForced(t, first, after, q, p);
  }

  /** A page is determined by its table, page size and cursor, so equal scopes give equal walks. */
  lemma PageIsUnique(t: Table, first: int, after: Option<int>, p: Page, q: Page)
    requires WellKeyed(t) && IsPage(t, first, after, p) && IsPage(t, first, after, q)
    ensures p == q
  {
    if |p.items| <= |q.items| { ShorterPage(t, first, after, p, q); } else { ShorterPage(t, first, after, q, p); }
  }

  /** Two completed walks with one page size, over fixed tables that agree on the caller's read
      scope, hand out the same pages. */
  lemma {:induction false} SameWalk(t: Table, u: Table, c: Caller, first: int, w: seq<Fetch>, v: seq<Fetch>,
                                    after: Option<int>)
    requires WellKeyed(t) && Scoped(t, c, Read) == Scoped(u, c, Read)
    requires IsWalk(w, after) && Complete(w) && Fixed(w, Scoped(t, c, Read), first)
    requires IsWalk(v, after) && Complete(v) && Fixed(v, Scoped(u, c, Read), first)
    ensures w == v
    decreases |w|
  {
    PageIsUnique(Scoped(t, c, Read), first, after, w[0].page, v[0].page);
    assert w[0] == v[0];
    if w[0].page.hasMore {
      SameWalk(t, u, c, first, w[1..], v[1..], w[0].page.nextCursor);
      assert w == [w[0]] + w[1..] && v == [v[0]] + v[1..];
    } else {
      assert |w| == 1 && |v| == 1;
    }
  }

  ghost predicate ReadableRow(t: Table, c: Caller, row: Row) {
    row.id in t && t[row.id] == row && Kept(ScopeFor(c, Read), row)
  }

  /** A completed walk of the service's pages over a table that stays as it is. */
  ghost predicate ServiceWalk(t: Table, c: Caller, first: int, w: seq<Fetch>) {
    IsWalk(w, None) && Complete(w) && Fixed(w, Scoped(t, c, Read), first)
  }

  /** What a completed walk of the service hands out: every row the caller may read, and no other, in
      ascending order of keys and each once. */
  lemma ServiceWalkExactly(t: Table, c: Caller, first: int, w: seq<Fetch>, row: Row)
    requires WellKeyed(t) && Trusted(c) && ServiceWalk(t, c, first, w)
    ensures Increasing(Keys(Emitted(w)))
    ensures row in Emitted(w) <==> row.id in t && t[row.id] == row && Accessible(c, Read, row)
  {
    var readable := Scoped(t, c, Read);
    WalkIncreases(w, None);
    ScopeExactly(c, Read, row);
    if row in Emitted(w) {
      var i :| 0 <= i < |Emitted(w)| && Emitted(w)[i] == row;
      EmittedWasReadable(w, None, i);
    }
    if row.id in readable && readable[row.id] == row {
      assert Throughout(w, row.id);
      PaginationUnderChange(w, row.id);
      var i :| 0 <= i < |Emitted(w)| && Emitted(w)[i].id == row.id;
      EmittedWasReadable(w, None, i);
      assert Emitted(w)[i] == row;
    }
  }

  /** Tables with the same readable rows, whatever else they hold, cannot be told apart by reading:
      the same list, the same row for every key, and the same walk at every page size. */
  lemma ReadIndependence(t: Table, u: Table, c: Caller)
    requires WellKeyed(t) && WellKeyed(u)
    requires forall row :: ReadableRow(t, c, row) <==> ReadableRow(u, c, row)
    ensures Scoped(t, c, Read) == Scoped(u, c, Read)
    ensures forall id :: FoundById(t, c, id) == FoundById(u, c, id)
    ensures forall first, w, v :: ServiceWalk(t, c, first, w) && ServiceWalk(u, c, first, v) ==> w == v
  {
    forall id ensures id in Scoped(t, c, Read) <==> id in Scoped(u, c, Read)
              ensures id in Scoped(t, c, Read) ==> t[id] == u[id]
    {
      if id in Scoped(t, c, Read) {
        assert ReadableRow(t, c, t[id]);
      }
      if id in Scoped(u, c, Read) {
        assert ReadableRow(u, c, u[id]);
      }
    }
    forall first, w, v | ServiceWalk(t, c, first, w) && ServiceWalk(u, c, first, v) ensures w == v {
      SameWalk(t, u, c, first, w, v, None);
    }
  }
}
