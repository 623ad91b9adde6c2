/**
 Ranking entries and the stable ascending sort applied to them.

 The transform sorts its entry lists with the host language's array sort
 and a comparator on brightness; that sort is required to be stable. The
 model fixes one stable sort (insertion of each entry in front of the first
 entry that is at least as bright) and proves that "ascending by brightness
 and keeping, for every brightness value, the entries of that value in
 input order" holds of its result and of nothing else, so any stable
 ascending sort produces exactly the same sequence.
 */
module StableSort {

  /** A ranked entry: its brightness score and what it stands for. */
  datatype Entry<P> = Entry(brightness: nat, payload: P)

  /** Non-decreasing brightness. */
  predicate Ascending<P>(s: seq<Entry<P>>) {
    forall i, j :: 0 <= i < j < |s| ==> s[i].brightness <= s[j].brightness
  }

  /** The entries of brightness `k`, in the order they occur in `s`. */
  function WithBrightness<P>(s: seq<Entry<P>>, k: nat): (r: seq<Entry<P>>)
    ensures |r| <= |s|
    ensures forall e :: e in r ==> e in s && e.brightness == k
  {
    if |s| == 0 then []
    else if s[0].brightness == k then [s[0]] + WithBrightness(s[1..], k)
    else WithBrightness(s[1..], k)
  }

  /**
   `t` holds the entries of `s` in stable ascending order: sorted by
   brightness, and for every brightness value the entries carrying it appear
   in `t` exactly as they appear in `s`.
   */
  ghost predicate IsStableSortOf<P>(t: seq<Entry<P>>, s: seq<Entry<P>>) {
    Ascending(t) && forall k: nat :: WithBrightness(t, k) == WithBrightness(s, k)
  }

  /** Places `x` in front of the first entry of `s` that is at least as bright. */
  function Insert<P>(x: Entry<P>, s: seq<Entry<P>>): (r: seq<Entry<P>>)
    ensures |r| == |s| + 1
    ensures multiset(r) == multiset(s) + multiset{x}
  {
    if |s| == 0 || x.brightness <= s[0].brightness then [x] + s
    else
      assert s == [s[0]] + s[1..];
      [s[0]] + Insert(x, s[1..])
  }

  /** Insertion sort: every entry is inserted into the sorted rest of the list. */
  function Sort<P>(s: seq<Entry<P>>): (r: seq<Entry<P>>)
    ensures |r| == |s|
    ensures multiset(r) == multiset(s)
  {
    if |s| == 0 then []
    else
      assert s == [s[0]] + s[1..];
      Insert(s[0], Sort(s[1..]))
  }

  /** Every entry of `Insert(x, s)` is `x` or an entry of `s`. */
  lemma InsertMembers<P>(x: Entry<P>, s: seq<Entry<P>>, e: Entry<P>)
    requires e in Insert(x, s)
    ensures e == x || e in s
  {
    assert e in multiset(Insert(x, s));
  }

  /** Putting an entry no brighter than the rest in front keeps the order. */
  lemma PrependAscending<P>(y: Entry<P>, rest: seq<Entry<P>>)
    requires Ascending(rest)
    requires forall e :: e in rest ==> y.brightness <= e.brightness
    ensures Ascending([y] + rest)
  {
    var r := [y] + rest;
    forall i, j | 0 <= i < j < |r| ensures r[i].brightness <= r[j].brightness {
      assert r[j] == rest[j - 1];
      if i > 0 {
        assert r[i] == rest[i - 1];
      } else {
        assert rest[j - 1] in rest;
      }
    }
  }

  /** Insertion into an ascending sequence keeps it ascending. */
  lemma {:induction false} InsertAscending<P>(x: Entry<P>, s: seq<Entry<P>>)
    requires Ascending(s)
    ensures Ascending(Insert(x, s))
    decreases |s|
  {
    if |s| == 0 || x.brightness <= s[0].brightness {
      forall e | e in s ensures x.brightness <= e.brightness {
        var m :| 0 <= m < |s| && s[m] == e;
      }
      PrependAscending(x, s);
    } else {
      var rest := Insert(x, s[1..]);
      InsertAscending(x, s[1..]);
      forall e | e in rest ensures s[0].brightness <= e.brightness {
        InsertMembers(x, s[1..], e);
        if e != x {
          var m :| 1 <= m < |s| && s[m] == e;
        }
      }
      PrependAscending(s[0], rest);
    }
  }

  /** The sort produces ascending brightness. */
  lemma {:induction false} SortAscending<P>(s: seq<Entry<P>>)
    ensures Ascending(Sort(s))
    decreases |s|
  {
    if |s| > 0 {
      SortAscending(s[1..]);
      InsertAscending(s[0], Sort(s[1..]));
    }
  }

  /** Inserting `x` adds it to the front of its own brightness class only. */
  lemma {:induction false} InsertWithBrightness<P>(x: Entry<P>, s: seq<Entry<P>>, k: nat)
    ensures WithBrightness(Insert(x, s), k)
         == if x.brightness == k then [x] + WithBrightness(s, k) else WithBrightness(s, k)
    decreases |s|
  {
    if |s| == 0 || x.brightness <= s[0].brightness {
      assert ([x] + s)[1..] == s;
    } else {
      InsertWithBrightness(x, s[1..], k);
      assert ([s[0]] + Insert(x, s[1..]))[1..] == Insert(x, s[1..]);
    }
  }

  /** Sorting keeps every brightness class in input order. */
  lemma {:induction false} SortWithBrightness<P>(s: seq<Entry<P>>, k: nat)
    ensures WithBrightness(Sort(s), k) == WithBrightness(s, k)
    decreases |s|
  {
    if |s| > 0 {
      SortWithBrightness(s[1..], k);
      InsertWithBrightness(s[0], Sort(s[1..]), k);
    }
  }

  /** The sort is stable and ascending. */
  lemma SortIsStable<P>(s: seq<Entry<P>>)
    ensures IsStableSortOf(Sort(s), s)
  {
    SortAscending(s);
    forall k: nat ensures WithBrightness(Sort(s), k) == WithBrightness(s, k) {
      SortWithBrightness(s, k);
    }
  }

  /** The brightness class of the first entry starts with that entry. */
  lemma HeadOfClass<P>(s: seq<Entry<P>>)
    requires |s| > 0
    ensures WithBrightness(s, s[0].brightness) == [s[0]] + WithBrightness(s[1..], s[0].brightness)
  {
  }

  /** Dropping the first entry drops it from its class and leaves the others alone. */
  lemma TailClasses<P>(s: seq<Entry<P>>, k: nat)
    requires |s| > 0
    ensures WithBrightness(s[1..], k)
         == if s[0].brightness == k then WithBrightness(s, k)[1..] else WithBrightness(s, k)
  {
  }

  /** In an ascending list, no class holds entries dimmer than the first entry. */
  lemma ClassNotBelowHead<P>(s: seq<Entry<P>>, e: Entry<P>, k: nat)
    requires |s| > 0 && Ascending(s) && e in WithBrightness(s, k)
    ensures s[0].brightness <= k
  {
    var j :| 0 <= j < |s| && s[j] == e;
    assert j == 0 || s[0].brightness <= s[j].brightness;
  }

  /** Two ascending lists with the same classes start with the same entry. */
  lemma SameHead<P>(a: seq<Entry<P>>, b: seq<Entry<P>>)
    requires |a| > 0 && |b| > 0 && Ascending(a) && Ascending(b)
    requires forall k: nat :: WithBrightness(a, k) == WithBrightness(b, k)
    ensures a[0] == b[0]
  {
    var ka, kb := a[0].brightness, b[0].brightness;
    HeadOfClass(a);
    HeadOfClass(b);
    assert WithBrightness(b, ka) == WithBrightness(a, ka);
    assert WithBrightness(a, kb) == WithBrightness(b, kb);
    ClassNotBelowHead(b, a[0], ka);
    ClassNotBelowHead(a, b[0], kb);
    assert WithBrightness(a, ka)[0] == a[0];
    assert WithBrightness(b, ka)[0] == b[0];
  }

  /** Dropping a common first entry keeps the classes equal. */
  lemma SameTailClasses<P>(a: seq<Entry<P>>, b: seq<Entry<P>>)
    requires |a| > 0 && |b| > 0 && a[0] == b[0]
    requires forall k: nat :: WithBrightness(a, k) == WithBrightness(b, k)
    ensures forall k: nat :: WithBrightness(a[1..], k) == WithBrightness(b[1..], k)
  {
    forall k: nat ensures WithBrightness(a[1..], k) == WithBrightness(b[1..], k) {
      TailClasses(a, k);
      TailClasses(b, k);
    }
  }

  /** Two stable ascending orders of the same classes are the same sequence. */
  lemma {:induction false} StableOrderIsUnique<P>(a: seq<Entry<P>>, b: seq<Entry<P>>)
    requires Ascending(a) && Ascending(b)
    requires forall k: nat :: WithBrightness(a, k) == WithBrightness(b, k)
    ensures a == b
    decreases |a| + |b|
  {
    if |a| == 0 && |b| == 0 {
    } else if |a| == 0 {
      HeadOfClass(b);
      assert false;
    } else if |b| == 0 {
      HeadOfClass(a);
      assert false;
    } else {
      SameHead(a, b);
      SameTailClasses(a, b);
      StableOrderIsUnique(a[1..], b[1..]);
      assert a == [a[0]] + a[1..];
      assert b == [b[0]] + b[1..];
    }
  }

  /** A sequence is a stable ascending order of `s` exactly when it is `Sort(s)`. */
  lemma SortIsTheStableOrder<P>(s: seq<Entry<P>>, t: seq<Entry<P>>)
    ensures IsStableSortOf(t, s) <==> t == Sort(s)
  {
    SortIsStable(s);
    if IsStableSortOf(t, s) {
      forall k: nat ensures WithBrightness(t, k) == WithBrightness(Sort(s), k) {
        assert WithBrightness(t, k) == WithBrightness(s, k);
      }
      StableOrderIsUnique(t, Sort(s));
    }
  }

  /** Payload tags strictly increase along `s` (the input scan order). */
  predicate TagsIncrease<P>(s: seq<Entry<P>>, tag: P -> int) {
    forall i, j :: 0 <= i < j < |s| ==> tag(s[i].payload) < tag(s[j].payload)
  }

  /** Ascending by brightness; on equal brightness, ascending by tag. */
  predicate TiesByTag<P>(s: seq<Entry<P>>, tag: P -> int) {
    forall i, j :: 0 <= i < j < |s| ==>
      s[i].brightness < s[j].brightness
      || (s[i].brightness == s[j].brightness && tag(s[i].payload) < tag(s[j].payload))
  }

  /** No two entries share a tag. */
  predicate DistinctTags<P>(s: seq<Entry<P>>, tag: P -> int) {
    forall i, j :: 0 <= i < |s| && 0 <= j < |s| && i != j ==> tag(s[i].payload) != tag(s[j].payload)
  }

  /** An entry that orders before every other one by (brightness, tag) can go in front. */
  lemma PrependKeepsTies<P>(y: Entry<P>, rest: seq<Entry<P>>, tag: P -> int)
    requires TiesByTag(rest, tag) && DistinctTags(rest, tag)
    requires forall e :: e in rest ==>
      (y.brightness < e.brightness
       || (y.brightness == e.brightness && tag(y.payload) < tag(e.payload)))
      && tag(y.payload) != tag(e.payload)
    ensures TiesByTag([y] + rest, tag) && DistinctTags([y] + rest, tag)
  {
    var r := [y] + rest;
    forall j | 1 <= j < |r| ensures r[j] == rest[j - 1] && r[j] in rest {
    }
  }

  /** Inserting an entry whose tag precedes all others keeps ties ordered by tag. */
  lemma {:induction false} InsertKeepsTies<P>(x: Entry<P>, s: seq<Entry<P>>, tag: P -> int)
    requires TiesByTag(s, tag) && DistinctTags(s, tag)
    requires forall e :: e in s ==> tag(x.payload) < tag(e.payload)
    ensures TiesByTag(Insert(x, s), tag) && DistinctTags(Insert(x, s), tag)
    decreases |s|
  {
    if |s| == 0 || x.brightness <= s[0].brightness {
      forall e | e in s ensures x.brightness <= e.brightness {
        var m :| 0 <= m < |s| && s[m] == e;
        assert m > 0 ==> s[0].brightness <= s[m].brightness;
      }
      PrependKeepsTies(x, s, tag);
    } else {
      var rest := Insert(x, s[1..]);
      InsertKeepsTies(x, s[1..], tag);
      forall e | e in rest
        ensures (s[0].brightness < e.brightness
                 || (s[0].brightness == e.brightness && tag(s[0].payload) < tag(e.payload)))
             && tag(s[0].payload) != tag(e.payload)
      {
        InsertMembers(x, s[1..], e);
        if e != x {
          var m :| 1 <= m < |s| && s[m] == e;
          assert s[1..][m - 1] == s[m];
        }
      }
      PrependKeepsTies(s[0], rest, tag);
    }
  }

  /**
   When the input is in tag order, the sorted entries of equal brightness stay
   in tag order and no two sorted entries share a tag.
   */
  lemma {:induction false} SortKeepsScanOrder<P>(s: seq<Entry<P>>, tag: P -> int)
    requires TagsIncrease(s, tag)
    ensures TiesByTag(Sort(s), tag) && DistinctTags(Sort(s), tag)
    decreases |s|
  {
    if |s| > 0 {
      SortKeepsScanOrder(s[1..], tag);
      forall e | e in Sort(s[1..]) ensures tag(s[0].payload) < tag(e.payload) {
        assert e in multiset(s[1..]);
      }
      InsertKeepsTies(s[0], Sort(s[1..]), tag);
    }
  }
}
