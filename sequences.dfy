/** Python's list idioms used throughout the model: comprehension filters,
    prefix and suffix slices, reversal. */
module Sequences {

  function Min(a: nat, b: nat): nat { if a <= b then a else b }

  /** `[x for x in s if p(x)]`. */
  function Filter<T>(s: seq<T>, p: T -> bool): (r: seq<T>)
    ensures |r| <= |s|
    ensures forall k :: 0 <= k < |r| ==> p(r[k])
  {
    if s == [] then []
    else
      assert s == [s[0]] + s[1..];
      (if p(s[0]) then [s[0]] else []) + Filter(s[1..], p)
  }

  /** Everything kept comes from the input. */
  lemma {:induction false} FilterMembers<T>(s: seq<T>, p: T -> bool)
    ensures forall k :: 0 <= k < |Filter(s, p)| ==> Filter(s, p)[k] in s
  {
    if s != [] {
      FilterMembers(s[1..], p);
      var rest := Filter(s[1..], p);
      assert Filter(s, p) == (if p(s[0]) then [s[0]] else []) + rest;
      forall k | 0 <= k < |Filter(s, p)| ensures Filter(s, p)[k] in s {
        if !(k == 0 && p(s[0])) {
          var j := if p(s[0]) then k - 1 else k;
          assert Filter(s, p)[k] == rest[j];
          var m :| 0 <= m < |s[1..]| && s[1..][m] == rest[j];
          assert s[m + 1] == rest[j];
        }
      }
    }
  }

  /** Nothing satisfying `p` is dropped. */
  lemma {:induction false} FilterKeeps<T>(s: seq<T>, p: T -> bool)
    ensures forall k :: 0 <= k < |s| && p(s[k]) ==> s[k] in Filter(s, p)
  {
    if s != [] {
      FilterKeeps(s[1..], p);
      assert Filter(s, p) == (if p(s[0]) then [s[0]] else []) + Filter(s[1..], p);
      forall k | 0 <= k < |s| && p(s[k]) ensures s[k] in Filter(s, p) {
        if k > 0 {
          assert s[k] == s[1..][k - 1];
        }
      }
    }
  }

  /** Every position moved one place to the right. */
  function Shift(ps: seq<nat>): (r: seq<nat>)
    ensures |r| == |ps|
    ensures forall k :: 0 <= k < |ps| ==> r[k] == ps[k] + 1
  {
    if ps == [] then [] else [ps[0] + 1] + Shift(ps[1..])
  }

  /** The positions of the elements `Filter` keeps, in order. */
  function KeptPositions<T>(s: seq<T>, p: T -> bool): seq<nat>
  {
    if s == [] then []
    else
      var rest := KeptPositions(s[1..], p);
      (if p(s[0]) then [0] else []) + Shift(rest)
  }

  /** `pos[k]` is a position of `s` holding `f[k]`, for every `k`. */
  ghost predicate Matches<T>(s: seq<T>, pos: seq<nat>, f: seq<T>)
  {
    |pos| == |f| && forall k :: 0 <= k < |pos| ==> pos[k] < |s| && s[pos[k]] == f[k]
  }

  /** Positions in the tail, moved one place, are positions in the whole sequence. */
  lemma ShiftMatches<T>(s: seq<T>, pos: seq<nat>, f: seq<T>)
    requires s != [] && Matches(s[1..], pos, f)
    ensures Matches(s, Shift(pos), f)
  {
    forall k | 0 <= k < |pos| ensures Shift(pos)[k] < |s| && s[Shift(pos)[k]] == f[k] {
      assert s[1..][pos[k]] == s[pos[k] + 1];
    }
  }

  /** The head's own position can be put in front. */
  lemma PrependMatches<T>(s: seq<T>, pos: seq<nat>, f: seq<T>)
    requires s != [] && Matches(s, pos, f)
    ensures Matches(s, [0] + pos, [s[0]] + f)
  {
    var pos', f' := [0] + pos, [s[0]] + f;
    forall k | 0 < k < |pos'| ensures pos'[k] < |s| && s[pos'[k]] == f'[k] {
      assert pos'[k] == pos[k - 1] && f'[k] == f[k - 1];
    }
  }

  /** Each kept position names the element kept at that place. */
  lemma {:induction false} KeptPositionsMatch<T>(s: seq<T>, p: T -> bool)
    ensures |KeptPositions(s, p)| == |Filter(s, p)|
    ensures forall k :: 0 <= k < |KeptPositions(s, p)| ==>
      KeptPositions(s, p)[k] < |s| && s[KeptPositions(s, p)[k]] == Filter(s, p)[k]
  {
    if s != [] {
      KeptPositionsMatch(s[1..], p);
      var rest, tail := KeptPositions(s[1..], p), Filter(s[1..], p);
      assert Matches(s[1..], rest, tail);
      ShiftMatches(s, rest, tail);
      if p(s[0]) {
        PrependMatches(s, Shift(rest), tail);
        assert KeptPositions(s, p) == [0] + Shift(rest);
        assert Filter(s, p) == [s[0]] + tail;
      } else {
        assert KeptPositions(s, p) == Shift(rest);
        assert Filter(s, p) == tail;
      }
      assert Matches(s, KeptPositions(s, p), Filter(s, p));
    }
  }

  /** The kept positions increase, so the kept elements keep their relative order. */
  lemma {:induction false} KeptPositionsIncrease<T>(s: seq<T>, p: T -> bool)
    ensures forall j, k :: 0 <= j < k < |KeptPositions(s, p)| ==> KeptPositions(s, p)[j] < KeptPositions(s, p)[k]
  {
    if s != [] {
      KeptPositionsIncrease(s[1..], p);
      var rest := KeptPositions(s[1..], p);
      var head: seq<nat> := if p(s[0]) then [0] else [];
      var shifted := Shift(rest);
      var pos := KeptPositions(s, p);
      assert pos == head + shifted;
      forall j, k | 0 <= j < k < |pos| ensures pos[j] < pos[k] {
        if j >= |head| {
          assert pos[j] == shifted[j - |head|] && pos[k] == shifted[k - |head|];
          assert rest[j - |head|] < rest[k - |head|];
        } else {
          assert pos[j] == 0;
          assert pos[k] == shifted[k - |head|] == rest[k - |head|] + 1;
        }
      }
    }
  }

  /** Every element satisfying `p` is kept. */
  lemma {:induction false} KeptPositionsComplete<T>(s: seq<T>, p: T -> bool)
    ensures forall i :: 0 <= i < |s| && p(s[i]) ==> i in KeptPositions(s, p)
  {
    if s != [] {
      KeptPositionsComplete(s[1..], p);
      var rest := KeptPositions(s[1..], p);
      var head: seq<nat> := if p(s[0]) then [0] else [];
      var shifted := Shift(rest);
      var pos := KeptPositions(s, p);
      assert pos == head + shifted;
      forall i | 0 <= i < |s| && p(s[i]) ensures i in pos {
        if i == 0 {
          assert pos[0] == 0;
        } else {
          assert s[1..][i - 1] == s[i];
          var k :| 0 <= k < |rest| && rest[k] == i - 1;
          assert shifted[k] == i;
          assert pos[|head| + k] == i;
        }
      }
    }
  }

  /** `s[:n]`. */
  function Take<T>(s: seq<T>, n: nat): (r: seq<T>)
    ensures |r| == Min(|s|, n)
    ensures forall k :: 0 <= k < |r| ==> r[k] == s[k]
  {
    if n <= |s| then s[..n] else s
  }

  /** The last `n` elements, or all of them when there are fewer. */
  function Last<T>(s: seq<T>, n: nat): (r: seq<T>)
    ensures |r| == Min(|s|, n)
    ensures r == s[|s| - |r|..]
  {
    if n <= |s| then s[|s| - n..] else s
  }

  /** `s[::-1]`. */
  function Reverse<T>(s: seq<T>): (r: seq<T>)
    ensures |r| == |s|
    ensures forall k :: 0 <= k < |s| ==> r[k] == s[|s| - 1 - k]
  {
    seq(|s|, k requires 0 <= k < |s| => s[|s| - 1 - k])
  }

  lemma {:induction false} ReverseMultiset<T>(s: seq<T>)
    ensures multiset(Reverse(s)) == multiset(s)
  {
    if s != [] {
      var r := Reverse(s);
      ReverseMultiset(s[1..]);
      assert r == Reverse(s[1..]) + [s[0]];
      assert s == [s[0]] + s[1..];
    }
  }

  /** The reversed last `n` elements are the first `n` of the reversed sequence. */
  lemma ReverseLast<T>(s: seq<T>, n: nat)
    ensures Reverse(Last(s, n)) == Take(Reverse(s), n)
  {
  }

  /** The elements satisfying `p` come first. */
  ghost predicate PrefixClosed<T>(s: seq<T>, p: T -> bool)
  {
    forall j, k :: 0 <= j < k < |s| && p(s[k]) ==> p(s[j])
  }

  lemma {:induction false} FilterNone<T>(s: seq<T>, p: T -> bool)
    requires forall k :: 0 <= k < |s| ==> !p(s[k])
    ensures Filter(s, p) == []
  {
    if s != [] {
      FilterNone(s[1..], p);
    }
  }

  /** Filtering a prefix equals taking a prefix of the filtered sequence
      when the kept elements come first. */
  lemma {:induction false} FilterTakeCommute<T>(s: seq<T>, p: T -> bool, n: nat)
    requires PrefixClosed(s, p)
    ensures Filter(Take(s, n), p) == Take(Filter(s, p), n)
  {
    if s == [] || n == 0 {
      if s != [] {
        assert Take(s, n) == [];
      }
    } else if p(s[0]) {
      assert PrefixClosed(s[1..], p) by {
        forall j, k | 0 <= j < k < |s[1..]| && p(s[1..][k]) ensures p(s[1..][j]) {
          assert s[1..][k] == s[k + 1] && s[1..][j] == s[j + 1];
        }
      }
      FilterTakeCommute(s[1..], p, n - 1);
      assert Take(s, n)[0] == s[0] && Take(s, n)[1..] == Take(s[1..], n - 1);
    } else {
      FilterNone(s, p);
      FilterNone(Take(s, n), p);
    }
  }
}
