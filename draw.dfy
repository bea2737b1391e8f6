/** Drawing cards: a set of distinct random indices splits the deck into the drawn cards and the rest. */
module Draw {
  import opened Cards

  /** The indices `0 <= i < n`. */
  function Range(n: nat): (r: set<int>)
    ensures forall i :: i in r <==> 0 <= i < n
  {
    if n == 0 then {} else Range(n - 1) + {n - 1}
  }

  /** The members of `picks` that index a sequence of length `n`. */
  function Below(picks: set<int>, n: nat): set<int>
  {
    set i | i in picks && 0 <= i < n
  }

  /**
   * How many distinct values `Math.floor(Math.random() * n)` can take: the indices of a
   * non-empty deck, and the single value 0 when the deck is empty.
   */
  function Slots(n: nat): nat
  {
    if n == 0 then 1 else n
  }

  /**
   * `s.filter((_, index) => picks.has(index))` when `keep` holds, and the filter with the
   * negated test otherwise.
   */
  function Filter<T>(s: seq<T>, picks: set<int>, keep: bool): seq<T>
  {
    if s == [] then []
    else Filter(s[..|s| - 1], picks, keep) + (if (|s| - 1 in picks) == keep then [s[|s| - 1]] else [])
  }

  /** The indices below `n` that `Filter` keeps, in increasing order. */
  function Positions(n: nat, picks: set<int>, keep: bool): seq<int>
  {
    if n == 0 then [] else Positions(n - 1, picks, keep) + (if (n - 1 in picks) == keep then [n - 1] else [])
  }

  lemma {:induction false} RangeSize(n: nat)
    ensures |Range(n)| == n
  {
    if n > 0 {
      var r := Range(n - 1);
      RangeSize(n - 1);
      assert n - 1 !in r;
      assert |r + {n - 1}| == |r| + 1;
    }
  }

  /** While fewer than `n` indices are chosen, some index below `n` is still free. */
  lemma RangeHasRoom(chosen: set<int>, n: nat)
    requires chosen <= Range(n) && |chosen| < n
    ensures exists i :: 0 <= i < n && i !in chosen
  {
    RangeSize(n);
    var free := Range(n) - chosen;
    assert Range(n) * chosen == chosen;
    assert |free| == n - |chosen| > 0;
    var i :| i in free;
  }

  /** The two filters split the sequence: lengths add up and together they hold the same cards. */
  lemma {:induction false} FilterSplit<T>(s: seq<T>, picks: set<int>)
    ensures |Filter(s, picks, true)| + |Filter(s, picks, false)| == |s|
    ensures multiset(Filter(s, picks, true)) + multiset(Filter(s, picks, false)) == multiset(s)
  {
    if s != [] {
      var n := |s| - 1;
      FilterSplit(s[..n], picks);
      assert s == s[..n] + [s[n]];
      assert multiset(s) == multiset(s[..n]) + multiset{s[n]};
    }
  }

  /** The kept part holds one element per chosen index that lies inside the sequence. */
  lemma {:induction false} FilterCount<T>(s: seq<T>, picks: set<int>)
    ensures |Filter(s, picks, true)| == |Below(picks, |s|)|
  {
    if s != [] {
      var n := |s| - 1;
      FilterCount(s[..n], picks);
      if n in picks {
        assert Below(picks, |s|) == Below(picks, n) + {n};
      } else {
        assert Below(picks, |s|) == Below(picks, n);
      }
    }
  }

  /**
   * Each filter keeps the original relative order: its k-th element is the element at the
   * k-th kept position, the positions increase, and they are exactly the indices the test keeps.
   */
  lemma {:induction false} FilterKeepsOrder<T>(s: seq<T>, picks: set<int>, keep: bool)
    ensures |Filter(s, picks, keep)| == |Positions(|s|, picks, keep)|
    ensures forall a, b :: 0 <= a < b < |Positions(|s|, picks, keep)| ==>
              Positions(|s|, picks, keep)[a] < Positions(|s|, picks, keep)[b]
    ensures forall k :: 0 <= k < |Positions(|s|, picks, keep)| ==>
              var i := Positions(|s|, picks, keep)[k];
              0 <= i < |s| && (i in picks) == keep && Filter(s, picks, keep)[k] == s[i]
    ensures forall i :: 0 <= i < |s| && (i in picks) == keep ==> i in Positions(|s|, picks, keep)
  {
    if s != [] {
      var n := |s| - 1;
      FilterKeepsOrder(s[..n], picks, keep);
      var f, p := Filter(s[..n], picks, keep), Positions(n, picks, keep);
      assert forall k :: 0 <= k < |p| ==> s[..n][p[k]] == s[p[k]];
      if (n in picks) == keep {
        assert Filter(s, picks, keep) == f + [s[n]];
        assert Positions(|s|, picks, keep) == p + [n];
      } else {
        assert Filter(s, picks, keep) == f;
        assert Positions(|s|, picks, keep) == p;
      }
    }
  }

  /** Without a chosen index inside the sequence, nothing is drawn and everything remains. */
  lemma {:induction false} FilterNothingChosen<T>(s: seq<T>, picks: set<int>)
    requires forall i :: 0 <= i < |s| ==> i !in picks
    ensures Filter(s, picks, true) == []
    ensures Filter(s, picks, false) == s
  {
    if s != [] {
      var n := |s| - 1;
      FilterNothingChosen(s[..n], picks);
      assert s == s[..n] + [s[n]];
    }
  }

  /** Drawing the single index `i` takes out exactly the element at `i`. */
  lemma {:induction false} FilterSingle<T>(s: seq<T>, i: int)
    requires 0 <= i < |s|
    ensures Filter(s, {i}, true) == [s[i]]
    ensures Filter(s, {i}, false) == s[..i] + s[i + 1..]
  {
    var n := |s| - 1;
    if i == n {
      FilterNothingChosen(s[..n], {i});
    } else {
      FilterSingle(s[..n], i);
      assert s[..n][..i] == s[..i];
      assert s[..i] + s[i + 1..] == s[..i] + s[..n][i + 1..] + [s[n]];
    }
  }

  /**
   * A draw of one index from a non-empty deck takes out exactly the card at that index; from an
   * empty deck it takes out nothing.
   */
  lemma SingleDraw<T>(deck: seq<T>, picks: set<int>) returns (i: int)
    requires picks <= Range(Slots(|deck|)) && |picks| == 1
    ensures deck == [] ==> Filter(deck, picks, true) == [] && Filter(deck, picks, false) == []
    ensures deck != [] ==> 0 <= i < |deck| && picks == {i}
    ensures deck != [] ==> Filter(deck, picks, true) == [deck[i]] && Filter(deck, picks, false) == deck[..i] + deck[i + 1..]
  {
    i :| i in picks;
    assert picks == {i} by {
      assert |picks - {i}| == 0;
    }
    if deck != [] {
      FilterSingle(deck, i);
    }
  }

  /** Moving the drawn cards onto the end of a hand keeps the cards of deck and hands together. */
  lemma MoveDrawn<T>(deck: seq<T>, hand: seq<T>, other: seq<T>, drawn: seq<T>, remaining: seq<T>)
    requires multiset(drawn) + multiset(remaining) == multiset(deck)
    ensures multiset(remaining) + multiset(hand + drawn) + multiset(other)
         == multiset(deck) + multiset(hand) + multiset(other)
  {
  }

  /**
   * `getRandomCards(deck, count)`: chooses `count` distinct random indices, then splits the
   * deck into the cards at those indices and the rest, both in deck order. A random index that
   * was already chosen leaves the set unchanged, so the loop is modelled by the draws that add a
   * new index. `count` may not exceed the number of distinct indices the random draw can yield,
   * or the source loops forever.
   */
  method GetRandomCards(deck: seq<Card>, count: nat) returns (drawn: seq<Card>, remaining: seq<Card>, ghost picks: set<int>)
    requires count <= Slots(|deck|)
    ensures picks <= Range(Slots(|deck|)) && |picks| == count
    ensures drawn == Filter(deck, picks, true) && remaining == Filter(deck, picks, false)
    ensures |drawn| == (if deck == [] then 0 else count)
    ensures |drawn| + |remaining| == |deck|
    ensures multiset(drawn) + multiset(remaining) == multiset(deck)
  {
    var chosen: set<int> := {};
    while |chosen| < count
      invariant chosen <= Range(Slots(|deck|))
      invariant |chosen| <= count
      decreases count - |chosen|
    {
      RangeHasRoom(chosen, Slots(|deck|));
      var i :| 0 <= i < Slots(|deck|) && i !in chosen;
      chosen := chosen + {i};
    }
    drawn := Filter(deck, chosen, true);
    remaining := Filter(deck, chosen, false);
    picks := chosen;
    FilterSplit(deck, chosen);
    FilterCount(deck, chosen);
    if deck != [] {
      assert Below(chosen, |deck|) == chosen;
    }
  }

  /**
   * `getRandomCards(deck, 1)`, as a hit and the dealer loop call it: one random card leaves the
   * deck, or nothing happens when the deck is already empty.
   */
  method DrawOne(deck: seq<Card>) returns (cards: seq<Card>, remaining: seq<Card>, ghost i: int)
    ensures deck == [] ==> cards == [] && remaining == []
    ensures deck != [] ==> 0 <= i < |deck| && cards == [deck[i]] && remaining == deck[..i] + deck[i + 1..]
    ensures multiset(cards) + multiset(remaining) == multiset(deck)
  {
    ghost var picks;
    cards, remaining, picks := GetRandomCards(deck, 1);
    i := SingleDraw(deck, picks);
  }
}
