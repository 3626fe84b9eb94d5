/** The sequence logic shared by both top-k attribution selectors:
    pairing feature names with attribution values (`zip`), Python's stable
    `sorted`/`list.sort` on the value, filtering by sign and taking a prefix. */
module Attribution {
  import opened Sequences

  /** A feature's name and attribution value, with its position in the input. */
  datatype Entry = Entry(index: nat, name: string, value: real)

  /** `zip(names, values)`: pairs up to the shorter length. */
  function Pair(names: seq<string>, values: seq<real>): (r: seq<Entry>)
    ensures |r| == Min(|names|, |values|)
    ensures forall k :: 0 <= k < |r| ==> r[k] == Entry(k, names[k], values[k])
  {
    seq(Min(|names|, |values|), k requires 0 <= k < Min(|names|, |values|) => Entry(k, names[k], values[k]))
  }

  ghost predicate IndicesIncreasing(s: seq<Entry>)
  {
    forall j, k :: 0 <= j < k < |s| ==> s[j].index < s[k].index
  }

  lemma PairIndicesIncreasing(names: seq<string>, values: seq<real>)
    ensures IndicesIncreasing(Pair(names, values))
  {
  }

  // ---------------------------------------------------------------------
  // Orders
  // ---------------------------------------------------------------------

  /** An order on entries: by value (descending or ascending), and among
      equal values by position (earliest or latest first). */
  datatype Order = Order(descending: bool, earliestFirst: bool)

  /** `a` comes strictly before `b` by value alone. */
  predicate Ahead(descending: bool, a: Entry, b: Entry)
  {
    if descending then a.value > b.value else a.value < b.value
  }

  /** `a` comes strictly before `b` in order `o`. */
  predicate Before(o: Order, a: Entry, b: Entry)
  {
    Ahead(o.descending, a, b)
      || (a.value == b.value && (if o.earliestFirst then a.index < b.index else a.index > b.index))
  }

  /** Every earlier element comes strictly before every later one. */
  ghost predicate Ordered(o: Order, s: seq<Entry>)
  {
    forall j, k :: 0 <= j < k < |s| ==> Before(o, s[j], s[k])
  }

  lemma BeforeTransitive(o: Order, a: Entry, b: Entry, c: Entry)
    requires Before(o, a, b) && Before(o, b, c)
    ensures Before(o, a, c)
  {
  }

  // ---------------------------------------------------------------------
  // Stable sort
  // ---------------------------------------------------------------------

  /** Inserts `e` before the first element that is not strictly ahead of it. */
  function Insert(descending: bool, e: Entry, s: seq<Entry>): (r: seq<Entry>)
    ensures |r| == |s| + 1
  {
    if s == [] then [e]
    else if !Ahead(descending, s[0], e) then [e] + s
    else
      assert s == [s[0]] + s[1..];
      [s[0]] + Insert(descending, e, s[1..])
  }

  /** Python's `sorted(s, key=value, reverse=descending)`: a permutation of
      the input (`SortByPermutation`) in stable order (`SortByOrdered`). */
  function SortBy(descending: bool, s: seq<Entry>): (r: seq<Entry>)
    ensures |r| == |s|
  {
    if s == [] then []
    else Insert(descending, s[0], SortBy(descending, s[1..]))
  }

  lemma {:induction false} InsertPermutation(descending: bool, e: Entry, s: seq<Entry>)
    ensures multiset(Insert(descending, e, s)) == multiset(s) + multiset{e}
  {
    if s != [] && Ahead(descending, s[0], e) {
      InsertPermutation(descending, e, s[1..]);
      assert s == [s[0]] + s[1..];
    }
  }

  lemma {:induction false} SortByPermutation(descending: bool, s: seq<Entry>)
    ensures multiset(SortBy(descending, s)) == multiset(s)
  {
    if s != [] {
      SortByPermutation(descending, s[1..]);
      InsertPermutation(descending, s[0], SortBy(descending, s[1..]));
      assert s == [s[0]] + s[1..];
    }
  }

  /** An element that comes before the head of an ordered sequence comes
      before all of it. */
  lemma ConsOrdered(o: Order, e: Entry, s: seq<Entry>)
    requires Ordered(o, s) && s != [] && Before(o, e, s[0])
    ensures Ordered(o, [e] + s)
  {
    var r := [e] + s;
    forall j, k | 0 <= j < k < |r| ensures Before(o, r[j], r[k]) {
      if j == 0 && k > 1 {
        BeforeTransitive(o, e, s[0], s[k - 1]);
      }
    }
  }

  /** An element that comes before every member of an ordered sequence can head it. */
  lemma PrependOrdered(o: Order, e: Entry, s: seq<Entry>)
    requires Ordered(o, s) && forall x :: x in s ==> Before(o, e, x)
    ensures Ordered(o, [e] + s)
  {
    var r := [e] + s;
    forall j, k | 0 <= j < k < |r| ensures Before(o, r[j], r[k]) {
      if j == 0 {
        assert r[k] in s;
      } else {
        assert r[j] == s[j - 1] && r[k] == s[k - 1];
      }
    }
  }

  lemma {:induction false} InsertOrdered(descending: bool, e: Entry, s: seq<Entry>)
    requires Ordered(Order(descending, true), s)
    requires forall x :: x in s ==> e.index < x.index
    ensures Ordered(Order(descending, true), Insert(descending, e, s))
  {
    var o := Order(descending, true);
    if s == [] {
    } else if !Ahead(descending, s[0], e) {
      ConsOrdered(o, e, s);
    } else {
      InsertOrdered(descending, e, s[1..]);
      InsertPermutation(descending, e, s[1..]);
      var rest := Insert(descending, e, s[1..]);
      forall x | x in rest ensures Before(o, s[0], x) {
        assert x in multiset(rest);
        if x != e {
          assert x in multiset(s[1..]);
          var k :| 0 <= k < |s[1..]| && s[1..][k] == x;
          assert s[k + 1] == x;
        }
      }
      PrependOrdered(o, s[0], rest);
    }
  }

  /** Python's sort is stable: when the input's positions increase, the
      result is ordered by value and, among equal values, by original
      position. */
  lemma {:induction false} SortByOrdered(descending: bool, s: seq<Entry>)
    requires IndicesIncreasing(s)
    ensures Ordered(Order(descending, true), SortBy(descending, s))
  {
    if s != [] {
      var rest := SortBy(descending, s[1..]);
      SortByOrdered(descending, s[1..]);
      SortByPermutation(descending, s[1..]);
      forall x | x in rest ensures s[0].index < x.index {
        assert x in multiset(s[1..]);
        var k :| 0 <= k < |s[1..]| && s[1..][k] == x;
        assert s[k + 1] == x;
      }
      InsertOrdered(descending, s[0], rest);
    }
  }

  // ---------------------------------------------------------------------
  // Filter by sign, take a prefix
  // ---------------------------------------------------------------------

  datatype Sign = Positive | Negative

  /** `value > 0` or `value < 0`. */
  predicate HasSign(e: Entry, sign: Sign)
  {
    match sign
    case Positive => e.value > 0.0
    case Negative => e.value < 0.0
  }

  /** The filter `value > 0` or `value < 0` as a predicate value. */
  function Signed(sign: Sign): Entry -> bool
  {
    (e: Entry) => HasSign(e, sign)
  }

  lemma {:induction false} FilterOrdered(o: Order, s: seq<Entry>, sign: Sign)
    requires Ordered(o, s)
    ensures Ordered(o, Filter(s, Signed(sign)))
  {
    if s != [] {
      FilterOrdered(o, s[1..], sign);
      FilterMembers(s[1..], Signed(sign));
      var rest := Filter(s[1..], Signed(sign));
      if HasSign(s[0], sign) {
        forall x | x in rest ensures Before(o, s[0], x) {
          var m :| 0 <= m < |s[1..]| && s[1..][m] == x;
          assert s[m + 1] == x;
        }
        PrependOrdered(o, s[0], rest);
        assert Filter(s, Signed(sign)) == [s[0]] + rest;
      } else {
        assert Filter(s, Signed(sign)) == rest;
      }
    }
  }

  lemma TakeOrdered(o: Order, s: seq<Entry>, n: nat)
    requires Ordered(o, s)
    ensures Ordered(o, Take(s, n))
  {
  }

  /** What a selection `Take(Filter(s, Signed(sign)), n)` from an ordered permutation
      `s` of `entries` guarantees: at most `n` entries, all from `entries`
      and of the right sign, in order; and every entry of that sign is
      either selected or beaten by all `n` selected ones. */
  lemma SelectionProperties(o: Order, s: seq<Entry>, entries: seq<Entry>, sign: Sign, n: nat)
    requires Ordered(o, s) && multiset(s) == multiset(entries)
    ensures var sel := Take(Filter(s, Signed(sign)), n);
      && |sel| <= n
      && (forall x :: x in sel ==> x in entries && HasSign(x, sign))
      && Ordered(o, sel)
      && (forall e :: e in entries && HasSign(e, sign) ==>
            e in sel || (|sel| == n && forall x :: x in sel ==> Before(o, x, e)))
  {
    var kept := Filter(s, Signed(sign));
    var sel := Take(kept, n);
    FilterOrdered(o, s, sign);
    TakeOrdered(o, kept, n);
    SelectionMembers(s, entries, sign, n);
    SelectionMaximal(o, s, entries, sign, n);
  }

  lemma SelectionMembers(s: seq<Entry>, entries: seq<Entry>, sign: Sign, n: nat)
    requires multiset(s) == multiset(entries)
    ensures forall x :: x in Take(Filter(s, Signed(sign)), n) ==> x in entries && HasSign(x, sign)
  {
    var kept := Filter(s, Signed(sign));
    var sel := Take(kept, n);
    FilterMembers(s, Signed(sign));
    forall x | x in sel ensures x in entries && HasSign(x, sign) {
      var k :| 0 <= k < |sel| && sel[k] == x;
      assert x == kept[k];
      assert x in multiset(s);
    }
  }

  lemma SelectionMaximal(o: Order, s: seq<Entry>, entries: seq<Entry>, sign: Sign, n: nat)
    requires Ordered(o, Filter(s, Signed(sign))) && multiset(s) == multiset(entries)
    ensures var sel := Take(Filter(s, Signed(sign)), n);
      forall e :: e in entries && HasSign(e, sign) ==>
        e in sel || (|sel| == n && forall x :: x in sel ==> Before(o, x, e))
  {
    var kept := Filter(s, Signed(sign));
    var sel := Take(kept, n);
    FilterKeeps(s, Signed(sign));
    forall e | e in entries && HasSign(e, sign) && e !in sel
      ensures |sel| == n && forall x :: x in sel ==> Before(o, x, e)
    {
      assert e in multiset(entries);
      assert e in s;
      assert e in kept;
      var p :| 0 <= p < |kept| && kept[p] == e;
      assert p >= n;
      forall x | x in sel ensures Before(o, x, e) {
        var k :| 0 <= k < |sel| && sel[k] == x;
        assert kept[k] == x;
      }
    }
  }

  // ---------------------------------------------------------------------
  // Facts used to relate the two selectors
  // ---------------------------------------------------------------------

  lemma DescendingPositivesFirst(s: seq<Entry>)
    requires Ordered(Order(true, true), s)
    ensures PrefixClosed(s, Signed(Positive))
  {
  }

  /** Reversing a descending, earliest-first sequence gives an ascending,
      latest-first one. */
  lemma ReverseOrdered(s: seq<Entry>)
    requires Ordered(Order(true, true), s)
    ensures Ordered(Order(false, false), Reverse(s))
  {
    var r := Reverse(s);
    forall j, k | 0 <= j < k < |r| ensures Before(Order(false, false), r[j], r[k]) {
      assert Before(Order(true, true), s[|s| - 1 - k], s[|s| - 1 - j]);
    }
  }

  lemma AscendingNegativesFirst(s: seq<Entry>)
    requires Ordered(Order(false, false), s)
    ensures PrefixClosed(s, Signed(Negative))
  {
  }
}
