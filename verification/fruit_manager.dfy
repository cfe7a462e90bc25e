/**
 * The fruit manager (domain/game/FruitManager.java): the level's fruits and the subset that
 * is active in the current fruit phase.
 */
module FruitManagers {
  import opened Fruits
  import opened Wrappers

  /** The fruits of the given kind, in their original order. */
  function OfKind<B>(fruits: seq<Fruit<B>>, kind: FruitKind): seq<Fruit<B>>
    decreases |fruits|
  {
    if |fruits| == 0 then []
    else
      var last := fruits[|fruits| - 1];
      OfKind(fruits[..|fruits| - 1], kind) + (if last.kind == kind then [last] else [])
  }

  /** The selection keeps exactly the fruits of the kind. */
  lemma {:induction false} OfKindMembers<B>(fruits: seq<Fruit<B>>, kind: FruitKind, f: Fruit<B>)
    ensures f in OfKind(fruits, kind) <==> f in fruits && f.kind == kind
    decreases |fruits|
  {
    if |fruits| > 0 {
      OfKindMembers(fruits[..|fruits| - 1], kind, f);
      assert fruits == fruits[..|fruits| - 1] + [fruits[|fruits| - 1]];
    }
  }

  /** Selection distributes over concatenation, so the selected fruits keep their order. */
  lemma {:induction false} OfKindAppend<B>(a: seq<Fruit<B>>, b: seq<Fruit<B>>, kind: FruitKind)
    ensures OfKind(a + b, kind) == OfKind(a, kind) + OfKind(b, kind)
    decreases |b|
  {
    if |b| > 0 {
      var b' := b[..|b| - 1];
      assert (a + b)[..|a + b| - 1] == a + b';
      OfKindAppend(a, b', kind);
    } else {
      assert a + b == a;
    }
  }

  /** Selecting a second time changes nothing. */
  lemma {:induction false} OfKindIdempotent<B>(fruits: seq<Fruit<B>>, kind: FruitKind)
    ensures OfKind(OfKind(fruits, kind), kind) == OfKind(fruits, kind)
    decreases |fruits|
  {
    if |fruits| > 0 {
      var init := fruits[..|fruits| - 1];
      var last := fruits[|fruits| - 1];
      OfKindIdempotent(init, kind);
      OfKindAppend(OfKind(init, kind), if last.kind == kind then [last] else [], kind);
      if last.kind == kind {
        assert OfKind([last], kind) == OfKind([], kind) + [last];
      }
    }
  }

  /** Selecting from distinct fruits gives distinct fruits. */
  lemma {:induction false} OfKindDistinct<B>(fruits: seq<Fruit<B>>, kind: FruitKind)
    requires Distinct(fruits)
    ensures Distinct(OfKind(fruits, kind))
    decreases |fruits|
  {
    if |fruits| > 0 {
      var init := fruits[..|fruits| - 1];
      var last := fruits[|fruits| - 1];
      OfKindDistinct(init, kind);
      OfKindMembers(init, kind, last);
      var r := OfKind(fruits, kind);
      if last.kind == kind {
        forall i, j | 0 <= i < j < |r|
          ensures r[i] != r[j]
        {
          if j == |r| - 1 {
            assert r[i] in OfKind(init, kind);
          }
        }
      }
    }
  }

  /** Every fruit in the list has been collected (so an empty list qualifies). */
  predicate AllCollected<B>(fruits: seq<Fruit<B>>)
    reads set i | 0 <= i < |fruits| :: fruits[i]
  {
    forall i :: 0 <= i < |fruits| ==> fruits[i].collected
  }

  class FruitManager<B> {
    const allFruits: seq<Fruit<B>>
    var activeFruits: seq<Fruit<B>>

    /** The active fruits are drawn from the level's fruits. */
    ghost predicate Valid()
      reads this
    {
      forall f :: f in activeFruits ==> f in allFruits
    }

    /** A manager over the given fruits with none of them active yet. */
    constructor (allFruits: seq<Fruit<B>>)
      ensures Valid() && this.allFruits == allFruits && activeFruits == []
    {
      this.allFruits := allFruits;
      activeFruits := [];
    }

    /** Every fruit of the level becomes active. */
    method ActivateAll()
      modifies this`activeFruits
      ensures Valid() && activeFruits == allFruits
    {
      activeFruits := [];
      activeFruits := activeFruits + allFruits;
    }

    /** Only the fruits of the given kind become active, in their original order. */
    method ActivateByClass(kind: FruitKind)
      modifies this`activeFruits
      ensures Valid() && activeFruits == OfKind(allFruits, kind)
    {
      activeFruits := [];
      for i := 0 to |allFruits|
        invariant activeFruits == OfKind(allFruits[..i], kind)
      {
        assert allFruits[..i + 1][..i] == allFruits[..i];
        if allFruits[i].kind == kind {
          activeFruits := activeFruits + [allFruits[i]];
        }
      }
      assert allFruits[..|allFruits|] == allFruits;
      forall f | f in activeFruits
        ensures f in allFruits
      {
        OfKindMembers(allFruits, kind, f);
      }
    }

    /** Whether every active fruit has been collected; it stops at the first one that has not. */
    method AllActiveCollected() returns (r: bool)
      ensures r == AllCollected(activeFruits)
    {
      for i := 0 to |activeFruits|
        invariant forall j :: 0 <= j < i ==> activeFruits[j].collected
      {
        if !activeFruits[i].collected {
          return false;
        }
      }
      return true;
    }
  }
}
