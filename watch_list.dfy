/**
 * The watch list of lib/watchList.ts: items stamped with the time they were added, kept in the
 * browser's localStorage slot "tmdb-watch-list". Reading sorts the stored items most recent first
 * (a stable sort); adding removes every entry with the same id and puts the new one in front;
 * removing drops every entry with the id. Ids are compared as `String(id)`. Outside a browser
 * every operation does nothing and reads see an empty list.
 */
module WatchList {
  import opened Wrappers
  import opened Text
  import opened MediaTypes

  datatype WatchItem = WatchItem(item: MediaItem, addedAt: int)

  /** The storage slot as `JSON.parse` sees it: nothing stored (or the empty text), text that does
      not parse to an array of items, or the items. */
  datatype Slot = Missing | Unparseable | Stored(items: seq<WatchItem>)

  function Key(w: WatchItem): string {
    IdString(w.item.id)
  }

  /** Most recently added first. */
  predicate Sorted(s: seq<WatchItem>) {
    forall i, j :: 0 <= i < j < |s| ==> s[i].addedAt >= s[j].addedAt
  }

  /** Inserts `x` in front of the first element added no later than it. */
  function Insert(x: WatchItem, s: seq<WatchItem>): (r: seq<WatchItem>)
    requires Sorted(s)
    ensures Sorted(r)
    ensures multiset(r) == multiset(s) + multiset{x}
    ensures forall y :: y in r ==> y == x || y in s
  {
    if s == [] || s[0].addedAt <= x.addedAt then
      SortedCons(x, s);
      [x] + s
    else
      assert s == [s[0]] + s[1..];
      assert Sorted(s[1..]) by {
        forall i, j | 0 <= i < j < |s[1..]| ensures s[1..][i].addedAt >= s[1..][j].addedAt {
          assert s[1..][i] == s[i + 1] && s[1..][j] == s[j + 1];
        }
      }
      var rest := Insert(x, s[1..]);
      forall y | y in rest ensures y.addedAt <= s[0].addedAt {
        if y != x {
          var k :| 0 <= k < |s[1..]| && s[1..][k] == y;
          assert s[k + 1] == y;
        }
      }
      SortedCons(s[0], rest);
      [s[0]] + rest
  }

  /** An item added no earlier than every item of a list in order can go in front of it. */
  lemma SortedCons(h: WatchItem, t: seq<WatchItem>)
    requires Sorted(t)
    requires forall y :: y in t ==> y.addedAt <= h.addedAt
    ensures Sorted([h] + t)
  {
    var r := [h] + t;
    forall i, j | 0 <= i < j < |r| ensures r[i].addedAt >= r[j].addedAt {
      assert r[j] == t[j - 1];
      if i > 0 {
        assert r[i] == t[i - 1];
      } else {
        assert t[j - 1] in t;
      }
    }
  }

  /** `items.sort((a, b) => b.addedAt - a.addedAt)`: ECMAScript's sort is stable. */
  function Sort(s: seq<WatchItem>): (r: seq<WatchItem>)
    ensures Sorted(r)
    ensures multiset(r) == multiset(s)
  {
    if s == [] then []
    else
      assert s == [s[0]] + s[1..];
      Insert(s[0], Sort(s[1..]))
  }

  /** The items added at time `t`, in order. */
  function AddedAt(s: seq<WatchItem>, t: int): seq<WatchItem> {
    if s == [] then []
    else (if s[0].addedAt == t then [s[0]] else []) + AddedAt(s[1..], t)
  }

  lemma {:induction false} AddedAtInsert(x: WatchItem, s: seq<WatchItem>, t: int)
    requires Sorted(s)
    ensures AddedAt(Insert(x, s), t) == (if x.addedAt == t then [x] else []) + AddedAt(s, t)
  {
    var mark := if x.addedAt == t then [x] else [];
    if s != [] && s[0].addedAt > x.addedAt {
      var y, rest := s[0], Insert(x, s[1..]);
      var head := if y.addedAt == t then [y] else [];
      assert AddedAt(Insert(x, s), t) == head + AddedAt(rest, t) by {
        assert Insert(x, s) == [y] + rest;
        assert ([y] + rest)[1..] == rest;
      }
      assert AddedAt(rest, t) == mark + AddedAt(s[1..], t) by {
        assert Sorted(s[1..]);
        AddedAtInsert(x, s[1..], t);
      }
      assert AddedAt(s, t) == head + AddedAt(s[1..], t);
      assert head == [] || mark == [];
    } else {
      assert ([x] + s)[1..] == s;
    }
  }

  /** The sort is stable: items added at the same time keep their stored order. */
  lemma {:induction false} SortStable(s: seq<WatchItem>, t: int)
    ensures AddedAt(Sort(s), t) == AddedAt(s, t)
  {
    if s != [] {
      SortStable(s[1..], t);
      AddedAtInsert(s[0], Sort(s[1..]), t);
    }
  }

  /** A list already in order is left as it is. */
  lemma {:induction false} SortSorted(s: seq<WatchItem>)
    requires Sorted(s)
    ensures Sort(s) == s
  {
    if s != [] {
      SortSorted(s[1..]);
      assert s == [s[0]] + s[1..];
    }
  }

  predicate HasKey(s: seq<WatchItem>, k: string) {
    exists i :: 0 <= i < |s| && Key(s[i]) == k
  }

  /** Reordering does not change which ids are present. */
  lemma HasKeyPermutation(a: seq<WatchItem>, b: seq<WatchItem>, k: string)
    requires multiset(a) == multiset(b)
    ensures HasKey(a, k) <==> HasKey(b, k)
  {
    if HasKey(a, k) {
      var i :| 0 <= i < |a| && Key(a[i]) == k;
      assert a[i] in multiset(b);
    }
    if HasKey(b, k) {
      var i :| 0 <= i < |b| && Key(b[i]) == k;
      assert b[i] in multiset(a);
    }
  }

  /** The number of entries with id `k`. */
  function CountKey(s: seq<WatchItem>, k: string): nat {
    if s == [] then 0 else (if Key(s[0]) == k then 1 else 0) + CountKey(s[1..], k)
  }

  /** `s.filter((i) => String(i.id) !== k)` */
  function WithoutKey(s: seq<WatchItem>, k: string): (r: seq<WatchItem>)
    ensures |r| <= |s|
    ensures CountKey(r, k) == 0
  {
    if s == [] then []
    else
      var rest := WithoutKey(s[1..], k);
      if Key(s[0]) == k then rest else [s[0]] + rest
  }

  /** The filter keeps exactly the entries with another id. */
  lemma {:induction false} WithoutKeyMembers(s: seq<WatchItem>, k: string, x: WatchItem)
    ensures x in WithoutKey(s, k) <==> x in s && Key(x) != k
  {
    if s != [] {
      WithoutKeyMembers(s[1..], k, x);
      assert s == [s[0]] + s[1..];
    }
  }

  /** What stays of a list in order is in order. */
  lemma {:induction false} WithoutKeySorted(s: seq<WatchItem>, k: string)
    requires Sorted(s)
    ensures Sorted(WithoutKey(s, k))
  {
    if s != [] {
      WithoutKeySorted(s[1..], k);
      forall x | x in WithoutKey(s[1..], k)
        ensures x.addedAt <= s[0].addedAt
      {
        WithoutKeyMembers(s[1..], k, x);
      }
    }
  }

  lemma WithoutKeyCons(x: WatchItem, s: seq<WatchItem>, k: string)
    ensures WithoutKey([x] + s, k) == (if Key(x) == k then [] else [x]) + WithoutKey(s, k)
  {
    assert ([x] + s)[1..] == s;
  }

  /** Filtering distributes over concatenation, so it keeps the relative order of what stays. */
  lemma {:induction false} WithoutKeyConcat(a: seq<WatchItem>, b: seq<WatchItem>, k: string)
    ensures WithoutKey(a + b, k) == WithoutKey(a, k) + WithoutKey(b, k)
  {
    if a == [] {
      assert a + b == b;
    } else {
      var x, t := a[0], a[1..];
      var front := if Key(x) == k then [] else [x];
      assert WithoutKey(a + b, k) == front + WithoutKey(t + b, k) by {
        assert a + b == [x] + (t + b);
        WithoutKeyCons(x, t + b, k);
      }
      assert WithoutKey(a, k) == front + WithoutKey(t, k) by {
        assert a == [x] + t;
        WithoutKeyCons(x, t, k);
      }
      WithoutKeyConcat(t, b, k);
    }
  }

  /** Filtering out an id that is absent changes nothing. */
  lemma {:induction false} WithoutAbsentKey(s: seq<WatchItem>, k: string)
    requires !HasKey(s, k)
    ensures WithoutKey(s, k) == s
  {
    if s != [] {
      assert Key(s[0]) != k;
      assert !HasKey(s[1..], k) by {
        forall i | 0 <= i < |s[1..]| ensures Key(s[1..][i]) != k {
          assert s[1..][i] == s[i + 1];
        }
      }
      WithoutAbsentKey(s[1..], k);
    }
  }

  /** Filtering twice by the same id is filtering once. */
  lemma {:induction false} WithoutKeyTwice(s: seq<WatchItem>, k: string)
    ensures WithoutKey(WithoutKey(s, k), k) == WithoutKey(s, k)
  {
    if s != [] {
      WithoutKeyTwice(s[1..], k);
    }
  }

  /** What `addToWatchList(item)` stores, given the list `getWatchList` returned: the item stamped
      `now` first, then every other entry in the order read. */
  function Added(view: seq<WatchItem>, item: MediaItem, now: int): (r: seq<WatchItem>)
    ensures |r| >= 1 && r[0] == WatchItem(item, now)
    ensures CountKey(r, IdString(item.id)) == 1
    ensures WithoutKey(r, IdString(item.id)) == WithoutKey(view, IdString(item.id))
    ensures !HasKey(view, IdString(item.id)) ==> |r| == |view| + 1
  {
    var k := IdString(item.id);
    var r := [WatchItem(item, now)] + WithoutKey(view, k);
    assert r[1..] == WithoutKey(view, k);
    WithoutKeyTwice(view, k);
    if HasKey(view, k) then r
    else
      WithoutAbsentKey(view, k);
      r
  }

  /** With a clock that does not run backwards, the list just stored is already in order, so the
      next read returns it unchanged, the added item first. */
  lemma AddedReadsBack(view: seq<WatchItem>, item: MediaItem, now: int)
    requires Sorted(view)
    requires forall i :: 0 <= i < |view| ==> view[i].addedAt <= now
    ensures Sort(Added(view, item, now)) == Added(view, item, now)
  {
    var k := IdString(item.id);
    var rest := WithoutKey(view, k);
    WithoutKeySorted(view, k);
    forall x | x in rest
      ensures x.addedAt <= now
    {
      WithoutKeyMembers(view, k, x);
    }
    assert Sorted([WatchItem(item, now)] + rest);
    SortSorted(Added(view, item, now));
  }

  class WatchListStore {
    /** `typeof window !== "undefined"` */
    const inBrowser: bool
    var slot: Slot

    constructor (inBrowser: bool, slot: Slot)
      ensures this.inBrowser == inBrowser && this.slot == slot
    {
      this.inBrowser := inBrowser;
      this.slot := slot;
    }

    function Items(): seq<WatchItem>
      reads this
    {
      if slot.Stored? then slot.items else []
    }

    /** `getWatchList()`: the stored items, most recent first; empty when nothing is stored, the
        text does not parse, or outside a browser. */
    function View(): (r: seq<WatchItem>)
      reads this
      ensures !inBrowser || !slot.Stored? ==> r == []
      ensures Sorted(r)
      ensures inBrowser ==> multiset(r) == multiset(Items())
    {
      if inBrowser then Sort(Items()) else []
    }

    /** `isInWatchList(id)`: whether a stored entry has the same `String(id)`, whatever the
        order it is read in. */
    function Contains(id: MediaId): (b: bool)
      reads this
      ensures b <==> inBrowser && HasKey(Items(), IdString(id))
    {
      if inBrowser then
        HasKeyPermutation(View(), Items(), IdString(id));
        HasKey(View(), IdString(id))
      else false
    }

    /** `addToWatchList(item)` at time `now`. */
    method Add(item: MediaItem, now: int)
      modifies this
      ensures !inBrowser ==> slot == old(slot)
      ensures inBrowser ==> slot == Stored(Added(old(View()), item, now))
    {
      if !inBrowser {
        return;
      }
      var currentList := View();
      var itemId := IdString(item.id);
      if HasKey(currentList, itemId) {
        var filtered := WithoutKey(currentList, itemId);
        slot := Stored([WatchItem(item, now)] + filtered);
      } else {
        WithoutAbsentKey(currentList, itemId);
        slot := Stored([WatchItem(item, now)] + currentList);
      }
    }

    /** `removeFromWatchList(id)`. */
    method Remove(id: MediaId)
      modifies this
      ensures !inBrowser ==> slot == old(slot)
      ensures inBrowser ==> slot == Stored(WithoutKey(old(View()), IdString(id)))
    {
      if !inBrowser {
        return;
      }
      var currentList := View();
      slot := Stored(WithoutKey(currentList, IdString(id)));
    }
  }
}
