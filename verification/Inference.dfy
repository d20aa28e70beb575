/**
  Schema inference folds coerce_pyro_types over the types it observes, left to right
  (PyroFieldAccumulator::observe). The fold may fail in one order and succeed in another, since
  I8, U8, F64 do not coerce pairwise. These lemmas say that the order never changes the answer.
*/
module Inference {
  import opened Prelude
  import opened PyroSpec
  import opened CoerceLaws

  /** The left fold, carrying a failure along. */
  function InferFrom(rule: Rule, acc: Option<PyroType>, ts: seq<PyroType>): Option<PyroType>
    decreases |ts|
  {
    if ts == [] then acc else InferFrom(rule, JoinOf(rule, acc, Some(ts[0])), ts[1..])
  }

  /** The type inferred from a non-empty list of observed types. */
  function Infer(ts: seq<PyroType>): Option<PyroType>
    requires ts != []
  {
    InferFrom(Source, Some(ts[0]), ts[1..])
  }

  predicate AllWellFormed(ts: seq<PyroType>) {
    forall i :: 0 <= i < |ts| ==> WellFormed(ts[i])
  }

  predicate Sound(acc: Option<PyroType>) {
    acc.Some? ==> WellFormed(acc.value)
  }

  lemma JoinOfSound(rule: Rule, acc: Option<PyroType>, t: PyroType)
    requires Sound(acc) && WellFormed(t)
    ensures Sound(JoinOf(rule, acc, Some(t)))
  {
    hide Join;
    if acc.Some? && Join(rule, acc.value, t).Some? {
      KeepsWellFormed(rule, acc.value, t);
    }
  }

  lemma {:induction false} FailureStays(rule: Rule, ts: seq<PyroType>)
    ensures InferFrom(rule, None, ts) == None
  {
    if ts != [] {
      FailureStays(rule, ts[1..]);
    }
  }

  lemma {:induction false} FoldAppend(rule: Rule, acc: Option<PyroType>, ts: seq<PyroType>, us: seq<PyroType>)
    ensures InferFrom(rule, acc, ts + us) == InferFrom(rule, InferFrom(rule, acc, ts), us)
    decreases |ts|
  {
    hide JoinOf;
    if ts == [] {
      assert ts + us == us;
    } else {
      assert (ts + us)[0] == ts[0] && (ts + us)[1..] == ts[1..] + us;
      FoldAppend(rule, JoinOf(rule, acc, Some(ts[0])), ts[1..], us);
    }
  }

  // ---------------------------------------------------------------------------
  // The completed fold does not depend on order
  // ---------------------------------------------------------------------------

  /** Two observations may be exchanged. */
  lemma ExchangeTwo(acc: Option<PyroType>, s: PyroType, t: PyroType)
    requires Sound(acc) && WellFormed(s) && WellFormed(t)
    ensures JoinOf(Completed, JoinOf(Completed, acc, Some(s)), Some(t)) ==
            JoinOf(Completed, JoinOf(Completed, acc, Some(t)), Some(s))
  {
    hide Join;
    if acc.Some? {
      Associative(acc.value, s, t);
      Associative(acc.value, t, s);
      Commutative(Completed, s, t);
    }
  }

  /** The observation at position i may be moved to the front. */
  lemma {:induction false} MoveToFront(acc: Option<PyroType>, ts: seq<PyroType>, i: nat)
    requires Sound(acc) && AllWellFormed(ts) && i < |ts|
    ensures InferFrom(Completed, acc, ts) == InferFrom(Completed, acc, [ts[i]] + (ts[..i] + ts[i + 1..]))
    decreases |ts|
  {
    hide Join, JoinOf;
    var t := ts[i];
    var others := ts[..i] + ts[i + 1..];
    assert ([t] + others)[0] == t && ([t] + others)[1..] == others;
    if i == 0 {
      assert [t] + others == ts;
    } else {
      var s, rest := ts[0], ts[1..];
      var others' := rest[..i - 1] + rest[i..];
      assert others[0] == s && others[1..] == others';
      JoinOfSound(Completed, acc, s);
      MoveToFront(JoinOf(Completed, acc, Some(s)), rest, i - 1);
      assert rest[i - 1] == t;
      assert ([t] + others')[0] == t && ([t] + others')[1..] == others';
      ExchangeTwo(acc, s, t);
    }
  }

  lemma RemoveOne(ts: seq<PyroType>, i: nat)
    requires i < |ts|
    ensures multiset(ts[..i] + ts[i + 1..]) == multiset(ts) - multiset{ts[i]}
  {
    assert ts == ts[..i] + [ts[i]] + ts[i + 1..];
  }

  lemma SameOthers(ts: seq<PyroType>, us: seq<PyroType>, i: nat)
    requires multiset(ts) == multiset(us) && ts != [] && i < |us| && us[i] == ts[0]
    ensures multiset(ts[1..]) == multiset(us[..i] + us[i + 1..])
  {
    RemoveOne(us, i);
    assert ts == [ts[0]] + ts[1..];
  }

  lemma {:induction false} CompletedFoldPermutes(acc: Option<PyroType>, ts: seq<PyroType>, us: seq<PyroType>)
    requires Sound(acc) && AllWellFormed(ts) && AllWellFormed(us)
    requires multiset(ts) == multiset(us)
    ensures InferFrom(Completed, acc, ts) == InferFrom(Completed, acc, us)
    decreases |ts|
  {
    hide Join, JoinOf;
    assert |ts| == |multiset(ts)| == |us|;
    if ts != [] {
      var t := ts[0];
      assert t in multiset(us);
      var i :| 0 <= i < |us| && us[i] == t;
      var others := us[..i] + us[i + 1..];
      MoveToFront(acc, us, i);
      assert ([t] + others)[0] == t && ([t] + others)[1..] == others;
      SameOthers(ts, us, i);
      assert InferFrom(Completed, acc, us) == InferFrom(Completed, JoinOf(Completed, acc, Some(t)), others);
      JoinOfSound(Completed, acc, t);
      CompletedFoldPermutes(JoinOf(Completed, acc, Some(t)), ts[1..], others);
    }
  }

  lemma {:induction false} FoldRefines(acc: PyroType, ts: seq<PyroType>)
    requires WellFormed(acc) && AllWellFormed(ts)
    requires InferFrom(Source, Some(acc), ts).Some?
    ensures InferFrom(Completed, Some(acc), ts) == InferFrom(Source, Some(acc), ts)
    ensures WellFormed(InferFrom(Source, Some(acc), ts).value)
    decreases |ts|
  {
    hide Join;
    if ts != [] {
      var next := Coerced(acc, ts[0]);
      if next.None? {
        FailureStays(Source, ts[1..]);
      } else {
        SourceRefinesCompleted(acc, ts[0]);
        KeepsWellFormed(Source, acc, ts[0]);
        FoldRefines(next.value, ts[1..]);
      }
    }
  }

  /** Starting from Null is the same as starting from the first type. */
  lemma InferFromNull(rule: Rule, ts: seq<PyroType>)
    requires ts != []
    ensures InferFrom(rule, Some(Null), ts) == InferFrom(rule, Some(ts[0]), ts[1..])
  {
    hide Join;
    JoinShortcuts(rule, Null, ts[0]);
  }

  /**
    Order-independent inference: any two orders in which inference succeeds infer the same type,
    field order and nullability included.
  */
  lemma InferenceIsOrderIndependent(ts: seq<PyroType>, us: seq<PyroType>)
    requires ts != [] && AllWellFormed(ts) && multiset(ts) == multiset(us)
    ensures us != [] && AllWellFormed(us)
    ensures Infer(ts).Some? && Infer(us).Some? ==> Infer(ts) == Infer(us)
  {
    hide Join;
    assert |us| == |multiset(us)| == |ts|;
    forall i | 0 <= i < |us|
      ensures WellFormed(us[i])
    {
      assert us[i] in multiset(ts);
    }
    if Infer(ts).Some? && Infer(us).Some? {
      FoldRefines(ts[0], ts[1..]);
      FoldRefines(us[0], us[1..]);
      InferFromNull(Completed, ts);
      InferFromNull(Completed, us);
      CompletedFoldPermutes(Some(Null), ts, us);
    }
  }

  /** Success itself does depend on order: a float seen early lets mixed integers through. */
  lemma OrderDecidesSuccess()
    ensures Infer([Scalar(I8), Scalar(F64), Scalar(U8)]) == Some(Scalar(F64))
    ensures Infer([Scalar(I8), Scalar(U8), Scalar(F64)]) == None
  {
    hide Join;
    JoinOfScalars(Source, Scalar(I8), Scalar(F64));
    JoinOfScalars(Source, Scalar(F64), Scalar(U8));
    JoinOfScalars(Source, Scalar(I8), Scalar(U8));
    var a, b, c := Scalar(I8), Scalar(F64), Scalar(U8);
    assert [a, b, c][1..] == [b, c] && [b, c][1..] == [c] && [c][1..] == [];
    assert [a, c, b][1..] == [c, b] && [c, b][1..] == [b] && [b][1..] == [];
  }
}
