/** Small numeric helpers with the engine's semantics, and the two array
    operations (AddUnique, RemoveSingle) the gameplay code relies on. */
module MathUtil {

  datatype Option<T> = None | Some(value: T)

  /** FMath::Clamp: `X < Min ? Min : X < Max ? X : Max`. */
  function Clamp(x: int, lo: int, hi: int): (r: int)
    ensures lo <= hi ==> lo <= r <= hi
    ensures lo <= x <= hi ==> r == x
    ensures x < lo ==> r == lo
    ensures lo <= hi && hi <= x ==> r == hi
  {
    if x < lo then lo else if x < hi then x else hi
  }

  /** FMath::Clamp on floats, over exact reals. FMath::Clamp is a template;
      Dafny has no type parameter with an ordering that `int` and `real`
      both satisfy, so the float instance is written out beside the integer
      one. */
  function ClampReal(x: real, lo: real, hi: real): (r: real)
    ensures lo <= hi ==> lo <= r <= hi
    ensures lo <= x <= hi ==> r == x
    ensures x < lo ==> r == lo
    ensures lo <= hi && hi <= x ==> r == hi
  {
    if x < lo then lo else if x < hi then x else hi
  }

  /** FMath::Min: `A <= B ? A : B`. */
  function Min(a: int, b: int): (r: int)
    ensures r <= a && r <= b
    ensures r == a || r == b
  {
    if a <= b then a else b
  }

  ghost predicate NoDuplicates<T>(s: seq<T>)
  {
    forall i, j :: 0 <= i < j < |s| ==> s[i] != s[j]
  }

  /** TArray::AddUnique: append x unless it is already present. */
  function AddUnique<T(==)>(s: seq<T>, x: T): (r: seq<T>)
    ensures x in r
    ensures NoDuplicates(s) ==> NoDuplicates(r)
    ensures x in s ==> r == s
    ensures x !in s ==> r == s + [x]
  {
    if x in s then s else s + [x]
  }

  /** TArray::RemoveSingle: remove the first occurrence of x, if any. */
  function RemoveSingle<T(==)>(s: seq<T>, x: T): (r: seq<T>)
    ensures x !in s ==> r == s
    ensures x in s ==> |r| == |s| - 1
  {
    if s == [] then []
    else if s[0] == x then s[1..]
    else assert s == [s[0]] + s[1..]; [s[0]] + RemoveSingle(s[1..], x)
  }

  /** RemoveSingle takes exactly one x out of the multiset of elements, and
      nothing when there is none. */
  lemma {:induction false} RemoveSinglePermutes<T>(s: seq<T>, x: T)
    ensures multiset(RemoveSingle(s, x)) == multiset(s) - multiset{x}
  {
    if s != [] {
      assert s == [s[0]] + s[1..];
      RemoveSinglePermutes(s[1..], x);
    }
  }

  /** RemoveSingle drops exactly the first index holding x. */
  lemma {:induction false} RemoveSingleAt<T>(s: seq<T>, x: T, i: nat)
    requires i < |s| && s[i] == x && x !in s[..i]
    ensures RemoveSingle(s, x) == s[..i] + s[i + 1..]
  {
    if i == 0 {
      assert s[..0] + s[1..] == s[1..];
    } else {
      assert s[..i][0] == s[0];
      var t := s[1..];
      assert t[..i - 1] == s[..i][1..];
      RemoveSingleAt(t, x, i - 1);
      assert t[i..] == s[i + 1..];
      assert s[..i] == [s[0]] + t[..i - 1];
    }
  }

  /** On a duplicate-free sequence RemoveSingle removes the one index that
      holds x, leaves x absent and keeps the sequence duplicate-free. */
  lemma RemoveSingleUnique<T>(s: seq<T>, x: T, i: nat)
    requires NoDuplicates(s) && i < |s| && s[i] == x
    ensures RemoveSingle(s, x) == s[..i] + s[i + 1..]
    ensures x !in RemoveSingle(s, x)
    ensures NoDuplicates(RemoveSingle(s, x))
  {
    forall k | 0 <= k < i
      ensures s[..i][k] != x
    {
      assert s[..i][k] == s[k];
    }
    RemoveSingleAt(s, x, i);
    var r := s[..i] + s[i + 1..];
    forall k | 0 <= k < |r|
      ensures r[k] == s[if k < i then k else k + 1]
    {
    }
    forall a, b | 0 <= a < b < |r|
      ensures r[a] != r[b]
    {
      assert r[a] == s[if a < i then a else a + 1];
      assert r[b] == s[if b < i then b else b + 1];
    }
    forall k | 0 <= k < |r|
      ensures r[k] != x
    {
      assert r[k] == s[if k < i then k else k + 1];
    }
  }

  /** In a duplicate-free sequence the first occurrence of s[k] is at k. */
  lemma IndexOfDistinct<T>(s: seq<T>, k: nat)
    requires NoDuplicates(s) && k < |s|
    ensures IndexOf(s, s[k]) == k
  {
  }

  /** Index of the first occurrence of x. */
  function IndexOf<T(==)>(s: seq<T>, x: T): (k: nat)
    requires x in s
    ensures k < |s| && s[k] == x && x !in s[..k]
  {
    if s[0] == x then 0
    else
      assert s == [s[0]] + s[1..];
      var k := IndexOf(s[1..], x);
      assert s[..k + 1] == [s[0]] + s[1..][..k];
      k + 1
  }
}
