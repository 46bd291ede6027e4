/** The barrier of a parallel join: create, restore and arrive. */
module ParallelBarrier {
  import opened Workflow
  import opened Topology

  datatype Barrier = Barrier(expected: seq<Id>, arrived: seq<Id>, released: bool)

  datatype Disposition = Waiting | Release | Duplicate

  datatype Error = BranchTokensInvalid | BarrierInvalid | UnknownBranch | AlreadyReleased

  datatype Arrival = Arrival(state: Barrier, disposition: Disposition)

  predicate TokensValid(tokens: seq<Id>) {
    (forall i :: 0 <= i < |tokens| ==> !IsBlank(tokens[i])) && Distinct(tokens)
  }

  predicate Valid(b: Barrier) {
    && TokensValid(b.expected) && b.expected != []
    && TokensValid(b.arrived)
    && (forall i :: 0 <= i < |b.arrived| ==> b.arrived[i] in b.expected)
    && b.released == (|b.arrived| == |b.expected|)
  }

  function Create(tokens: seq<Id>): Result<Barrier, Error> {
    if tokens == [] || !TokensValid(tokens) then Err(BranchTokensInvalid) else Ok(Barrier(tokens, [], false))
  }

  function Restore(b: Barrier): Result<Barrier, Error> {
    if Valid(b) then Ok(b) else Err(BarrierInvalid)
  }

  function Arrive(state: Barrier, token: Id): Result<Arrival, Error> {
    match Restore(state)
    case Err(e) => Err(e)
    case Ok(b) =>
      if token !in b.expected then Err(UnknownBranch)
      else if token in b.arrived then Ok(Arrival(b, Duplicate))
      else if b.released then Err(AlreadyReleased)
      else
        var arrived := b.arrived + [token];
        var released := forall i :: 0 <= i < |b.expected| ==> b.expected[i] in arrived;
        Ok(Arrival(b.(arrived := arrived, released := released), if released then Release else Waiting))
  }

  /** Distinct arrivals among the expected branches cover them exactly when there are as many. */
  lemma CoversByCount(b: Barrier)
    requires Distinct(b.expected) && Distinct(b.arrived)
    requires forall i :: 0 <= i < |b.arrived| ==> b.arrived[i] in b.expected
    ensures |b.arrived| == |b.expected| <==> Elements(b.expected) == Elements(b.arrived)
    ensures Elements(b.expected) == Elements(b.arrived) <==> forall x :: x in b.expected ==> x in b.arrived
  {
    forall x | x in Elements(b.arrived)
      ensures x in Elements(b.expected)
    {
    }
    SameSize(b.arrived, b.expected);
    if forall x :: x in b.expected ==> x in b.arrived {
      assert forall x :: x in Elements(b.expected) <==> x in Elements(b.arrived);
    }
    if Elements(b.expected) == Elements(b.arrived) {
      forall x | x in b.expected
        ensures x in b.arrived
      {
        assert x in Elements(b.expected);
      }
    }
  }

  /** Arriving keeps validity, and the "already released" error cannot happen: a released barrier
      has heard from every branch, so every known token is a duplicate. */
  lemma ArriveOnValid(b: Barrier, token: Id)
    requires Valid(b)
    ensures Arrive(b, token).Ok? <==> token in b.expected
    ensures Arrive(b, token).Err? ==> Arrive(b, token).error == UnknownBranch
    ensures Arrive(b, token).Ok? ==> Valid(Arrive(b, token).value.state)
    ensures Arrive(b, token).Ok? ==> Arrive(b, token).value.state.expected == b.expected
  {
    CoversByCount(b);
    if token in b.expected && token !in b.arrived {
      var next := Arrive(b, token).value.state;
      assert forall x :: x in next.arrived <==> x in b.arrived || x == token;
      CoversByCount(next);
    }
  }

  // ----- any sequence of arrivals

  ghost predicate Known(expected: seq<Id>, tokens: seq<Id>) {
    forall i :: 0 <= i < |tokens| ==> tokens[i] in expected
  }

  /** The barrier after the given arrivals, from a fresh one. */
  ghost function After(expected: seq<Id>, tokens: seq<Id>): (b: Barrier)
    requires Create(expected).Ok? && Known(expected, tokens)
    ensures Valid(b) && b.expected == expected
    ensures forall x :: x in b.arrived <==> x in tokens
  {
    if tokens == [] then Create(expected).value
    else
      var before := After(expected, tokens[..|tokens| - 1]);
      var token := tokens[|tokens| - 1];
      ArriveOnValid(before, token);
      assert tokens == tokens[..|tokens| - 1] + [token];
      Arrive(before, token).value.state
  }

  /** Restoring accepts exactly the barriers that creation and known arrivals lead to. */
  lemma RestorableIffReached(b: Barrier)
    ensures Restore(b).Ok? <==>
            && |b.expected| > 0 && (forall i :: 0 <= i < |b.expected| ==> b.expected[i] > 0) && Distinct(b.expected)
            && exists tokens :: Known(b.expected, tokens) && After(b.expected, tokens) == b
    ensures Restore(b).Ok? ==> Restore(b).value == b
  {
    if Valid(b) {
      assert Known(b.expected, b.arrived);
      Rebuilt(b, |b.arrived|);
      assert b.arrived[..|b.arrived|] == b.arrived;
    }
  }

  lemma {:induction false} Rebuilt(b: Barrier, n: nat)
    requires Valid(b) && n <= |b.arrived|
    ensures Known(b.expected, b.arrived[..n]) && After(b.expected, b.arrived[..n]).arrived == b.arrived[..n]
  {
    if n > 0 {
      Rebuilt(b, n - 1);
      var before := After(b.expected, b.arrived[..n - 1]);
      assert b.arrived[..n][..n - 1] == b.arrived[..n - 1] && b.arrived[..n] == b.arrived[..n - 1] + [b.arrived[n - 1]];
      ArriveOnValid(before, b.arrived[n - 1]);
      assert b.arrived[n - 1] !in b.arrived[..n - 1] && b.arrived[n - 1] in b.expected;
      hide Valid, Elements;
      assert Arrive(before, b.arrived[n - 1]).value.state.arrived == before.arrived + [b.arrived[n - 1]];
    }
  }

  ghost function DispositionAt(expected: seq<Id>, tokens: seq<Id>, i: nat): Disposition
    requires Create(expected).Ok? && Known(expected, tokens) && i < |tokens|
  {
    var before := After(expected, tokens[..i]);
    ArriveOnValid(before, tokens[i]);
    Arrive(before, tokens[i]).value.disposition
  }

  ghost predicate Covers(expected: seq<Id>, tokens: seq<Id>) {
    forall x :: x in expected ==> x in tokens
  }

  /** Each arrival is classified by the arrivals before it alone: repeated tokens are duplicates
      and change nothing, the first one that completes the set releases, the others wait. */
  lemma ArrivalLaw(expected: seq<Id>, tokens: seq<Id>, i: nat)
    requires Create(expected).Ok? && Known(expected, tokens) && i < |tokens|
    ensures DispositionAt(expected, tokens, i) == Duplicate <==> tokens[i] in tokens[..i]
    ensures DispositionAt(expected, tokens, i) == Duplicate ==>
              After(expected, tokens[..i + 1]) == After(expected, tokens[..i])
    ensures DispositionAt(expected, tokens, i) == Release <==>
              !Covers(expected, tokens[..i]) && Covers(expected, tokens[..i + 1])
  {
    var before := After(expected, tokens[..i]);
    assert tokens[..i + 1][..i] == tokens[..i];
    assert tokens[..i + 1] == tokens[..i] + [tokens[i]];
    ArriveOnValid(before, tokens[i]);
    assert forall x :: x in tokens[..i + 1] <==> x in before.arrived || x == tokens[i];
    if tokens[i] !in before.arrived {
      var arrived := before.arrived + [tokens[i]];
      assert forall x :: x in arrived <==> x in tokens[..i + 1];
      assert !Covers(expected, tokens[..i]);
      if forall k :: 0 <= k < |expected| ==> expected[k] in arrived {
        assert Covers(expected, tokens[..i + 1]);
      }
    } else {
      assert forall x :: x in tokens[..i + 1] <==> x in tokens[..i];
    }
  }

  /** The barrier is released after some arrivals exactly when they cover every branch, and then
      exactly one of them was the release. */
  lemma ReleasedExactlyOnce(expected: seq<Id>, tokens: seq<Id>)
    requires Create(expected).Ok? && Known(expected, tokens)
    ensures After(expected, tokens).released <==> Covers(expected, tokens)
    ensures Covers(expected, tokens) <==> exists i :: 0 <= i < |tokens| && DispositionAt(expected, tokens, i) == Release
    ensures forall i, j :: 0 <= i < j < |tokens| ==>
                             DispositionAt(expected, tokens, i) != Release || DispositionAt(expected, tokens, j) != Release
  {
    CoversByCount(After(expected, tokens));
    assert tokens[..|tokens|] == tokens;
    if Covers(expected, tokens) {
      var i := FirstCover(expected, tokens);
      ArrivalLaw(expected, tokens, i);
    }
    forall i | 0 <= i < |tokens| && DispositionAt(expected, tokens, i) == Release
      ensures Covers(expected, tokens)
    {
      ArrivalLaw(expected, tokens, i);
      CoversLater(expected, tokens, i + 1, |tokens|);
    }
    forall i, j | 0 <= i < j < |tokens| && DispositionAt(expected, tokens, i) == Release
      ensures DispositionAt(expected, tokens, j) != Release
    {
      ArrivalLaw(expected, tokens, i);
      ArrivalLaw(expected, tokens, j);
      CoversLater(expected, tokens, i + 1, j);
    }
  }

  lemma CoversLater(expected: seq<Id>, tokens: seq<Id>, i: nat, j: nat)
    requires i <= j <= |tokens| && Covers(expected, tokens[..i])
    ensures Covers(expected, tokens[..j])
  {
    assert forall x :: x in tokens[..i] ==> x in tokens[..j];
  }

  lemma FirstCover(expected: seq<Id>, tokens: seq<Id>) returns (i: nat)
    requires expected != [] && Covers(expected, tokens)
    ensures i < |tokens| && !Covers(expected, tokens[..i]) && Covers(expected, tokens[..i + 1])
  {
    assert tokens[..|tokens|] == tokens;
    var x := expected[0];
    assert x in expected;
    assert x in tokens && x !in tokens[..0];
    i := 0;
    while !Covers(expected, tokens[..i + 1])
      invariant i < |tokens| && !Covers(expected, tokens[..i])
      decreases |tokens| - i
    {
      i := i + 1;
    }
  }
}
