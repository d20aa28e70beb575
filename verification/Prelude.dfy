/** Small shared vocabulary: optional values, results and the order of map keys. */
module Prelude {

  datatype Option<+T> = None | Some(value: T) {
    predicate IsFailure() {
      None?
    }

    function PropagateFailure<U>(): Option<U>
      requires None?
    {
      None
    }

    function Extract(): T
      requires Some?
    {
      value
    }

    function GetOr(default: T): T {
      if Some? then value else default
    }
  }

  datatype Result<+T, +E> = Ok(value: T) | Err(error: E)

  function Max(x: nat, y: nat): nat {
    if x > y then x else y
  }

  function Min(x: nat, y: nat): nat {
    if x < y then x else y
  }

  /** The width of the machine's `usize`. */
  const USIZE_LIMIT: nat := 0x1_0000_0000_0000_0000
  const USIZE_MAX: nat := USIZE_LIMIT - 1

  type Usize = n: nat | n < USIZE_LIMIT

  // ---------------------------------------------------------------------------
  // String order (the key order of a BTreeMap<String, _>)
  // ---------------------------------------------------------------------------

  /** Strict lexicographic order by code point. */
  predicate Before(a: string, b: string) {
    b != [] && (a == [] || a[0] < b[0] || (a[0] == b[0] && Before(a[1..], b[1..])))
  }

  lemma {:induction false} BeforeTrichotomy(a: string, b: string)
    ensures a == b || Before(a, b) || Before(b, a)
  {
    if a != [] && b != [] && a[0] == b[0] {
      BeforeTrichotomy(a[1..], b[1..]);
      assert a == [a[0]] + a[1..] && b == [b[0]] + b[1..];
    }
  }

  /** The order of BTreeMap keys: at the first difference the smaller character, or the end, comes first. */
  lemma {:induction false} BeforeIsLexicographic(a: string, b: string)
    ensures Before(a, b) <==>
            exists i :: 0 <= i <= |a| && i < |b| && a[..i] == b[..i] && (i == |a| || a[i] < b[i])
  {
    if a != [] && b != [] && a[0] == b[0] {
      BeforeIsLexicographic(a[1..], b[1..]);
      if i :| 0 <= i <= |a| && i < |b| && a[..i] == b[..i] && (i == |a| || a[i] < b[i]) {
        assert i > 0 && a[1..][..i - 1] == a[..i][1..] && b[1..][..i - 1] == b[..i][1..];
      }
      if i :| 0 <= i <= |a[1..]| && i < |b[1..]| && a[1..][..i] == b[1..][..i] &&
              (i == |a[1..]| || a[1..][i] < b[1..][i])
      {
        assert a[..i + 1] == [a[0]] + a[1..][..i] && b[..i + 1] == [b[0]] + b[1..][..i];
      }
    } else if b != [] {
      assert a[..0] == b[..0];
    }
  }

  lemma {:induction false} BeforeAsymmetric(a: string, b: string)
    requires Before(a, b)
    ensures !Before(b, a) && a != b
  {
    if a != [] && a[0] == b[0] {
      BeforeAsymmetric(a[1..], b[1..]);
    }
  }

  lemma {:induction false} BeforeTransitive(a: string, b: string, c: string)
    requires Before(a, b) && Before(b, c)
    ensures Before(a, c)
  {
    if a != [] && a[0] == b[0] == c[0] {
      BeforeTransitive(a[1..], b[1..], c[1..]);
    }
  }

  predicate IsLeastKey(k: string, keys: set<string>) {
    k in keys && forall x :: x in keys && x != k ==> Before(k, x)
  }

  lemma {:induction false} LeastKeyExists(keys: set<string>)
    requires keys != {}
    ensures exists k :: IsLeastKey(k, keys)
  {
    var x :| x in keys;
    if keys == {x} {
      assert IsLeastKey(x, keys);
    } else {
      LeastKeyExists(keys - {x});
      var k :| IsLeastKey(k, keys - {x});
      BeforeTrichotomy(k, x);
      if Before(k, x) {
        assert IsLeastKey(k, keys);
      } else {
        forall y | y in keys && y != x
          ensures Before(x, y)
        {
          if y != k {
            BeforeTransitive(x, k, y);
          }
        }
        assert IsLeastKey(x, keys);
      }
    }
  }

  lemma LeastKeyUnique(k: string, l: string, keys: set<string>)
    requires IsLeastKey(k, keys) && IsLeastKey(l, keys)
    ensures k == l
  {
    if k != l {
      BeforeAsymmetric(k, l);
    }
  }

  /** The first key a BTreeMap with this key set would iterate. */
  function LeastKey(keys: set<string>): (k: string)
    requires keys != {}
    ensures IsLeastKey(k, keys)
  {
    LeastKeyExists(keys);
    assert forall k, l :: IsLeastKey(k, keys) && IsLeastKey(l, keys) ==> k == l by {
      forall k, l | IsLeastKey(k, keys) && IsLeastKey(l, keys) ensures k == l {
        LeastKeyUnique(k, l, keys);
      }
    }
    var k :| IsLeastKey(k, keys);
    k
  }

  predicate Distinct<T(==)>(xs: seq<T>) {
    forall i, j :: 0 <= i < j < |xs| ==> xs[i] != xs[j]
  }

  predicate Ascending(xs: seq<string>) {
    forall i, j :: 0 <= i < j < |xs| ==> Before(xs[i], xs[j])
  }

  /** The iteration order of a BTreeMap with this key set. */
  function SortedKeys(keys: set<string>): (ks: seq<string>)
    ensures forall k :: k in ks <==> k in keys
    ensures Distinct(ks)
    ensures Ascending(ks)
    ensures |ks| == |keys|
  {
    if keys == {} then []
    else
      var k := LeastKey(keys);
      [k] + SortedKeys(keys - {k})
  }

  lemma TwoToFront<T>(xs: seq<T>, i: nat, j: nat) returns (ys: seq<T>)
    requires i < j < |xs|
    ensures |ys| == |xs| && ys[0] == xs[i] && ys[1] == xs[j] && multiset(ys) == multiset(xs)
  {
    var rest := xs[..i] + xs[i + 1..j] + xs[j + 1..];
    ys := [xs[i], xs[j]] + rest;
    assert xs == xs[..i] + [xs[i]] + xs[i + 1..j] + [xs[j]] + xs[j + 1..];
  }
}
