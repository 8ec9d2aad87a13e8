/** JavaScript values and the Array built-ins that the graph viewer relies on
    (`indexOf`, `includes`, `splice`), stated over sequences. */
module JsRuntime {

  datatype Option<T> = None | Some(value: T)

  /** A JavaScript value, as far as the viewer's code tells values apart.
      Numbers are integers (NaN is kept apart because it is falsy); objects
      and functions are identified by a reference number, so `==` here is
      JavaScript's `===`. */
  datatype JsValue =
    | Undefined
    | Null
    | Bool(b: bool)
    | Number(n: int)
    | NaN
    | Str(s: string)
    | Object(ref: nat)

  /** JavaScript truthiness, as used by `if (v)` and `v || w`. */
  predicate Truthy(v: JsValue) {
    match v
    case Bool(b) => b
    case Number(n) => n != 0
    case Str(s) => s != ""
    case Object(_) => true
    case _ => false
  }

  /** `s.indexOf(x)`: the first index that holds `x`, or -1 when there is none. */
  function IndexOf<T(==)>(s: seq<T>, x: T): (i: int)
    ensures -1 <= i < |s|
    ensures i == -1 <==> x !in s
    ensures 0 <= i ==> s[i] == x && x !in s[..i]
  {
    if |s| == 0 then -1
    else if s[0] == x then 0
    else
      var j := IndexOf(s[1..], x);
      if j == -1 then -1
      else
        assert s[..j + 1] == [s[0]] + s[1..][..j];
        j + 1
  }

  /** `s.splice(i, 1)` for an index inside the array. */
  function RemoveAt<T>(s: seq<T>, i: nat): (r: seq<T>)
    requires i < |s|
    ensures |r| == |s| - 1
    ensures forall k :: 0 <= k < i ==> r[k] == s[k]
    ensures forall k :: i <= k < |r| ==> r[k] == s[k + 1]
  {
    s[..i] + s[i + 1..]
  }

  /** `s.splice(k, 1)` for any k >= 0: an index past the end removes nothing. */
  function SpliceOne<T>(s: seq<T>, k: nat): (r: seq<T>)
    ensures k < |s| ==> r == RemoveAt(s, k)
    ensures |s| <= k ==> r == s
  {
    if k < |s| then RemoveAt(s, k) else s
  }

  /** `const i = s.indexOf(x); if (i > -1) s.splice(i, 1);`: drop the first occurrence of x. */
  function RemoveFirst<T(==)>(s: seq<T>, x: T): (r: seq<T>)
    ensures x in s ==> |r| == |s| - 1 && multiset(r) == multiset(s) - multiset{x}
    ensures x !in s ==> r == s
    ensures forall y :: y in r ==> y in s
    ensures forall y :: y in s && y != x ==> y in r
  {
    var i := IndexOf(s, x);
    if i == -1 then s
    else
      assert s == s[..i] + [x] + s[i + 1..];
      assert multiset(s) == multiset(s[..i]) + multiset{x} + multiset(s[i + 1..]);
      var r := s[..i] + s[i + 1..];
      assert forall y :: y in s && y != x ==> multiset(r)[y] > 0;
      r
  }

  /** The elements of a sequence, as a set. */
  ghost function Elems<T>(s: seq<T>): set<T> {
    set x | x in s
  }

  /** No element occurs twice. */
  predicate NoDup<T(==)>(s: seq<T>) {
    forall i, j :: 0 <= i < j < |s| ==> s[i] != s[j]
  }

  /** Removing the first occurrence from a duplicate-free sequence removes the
      element altogether and keeps the sequence duplicate-free. */
  lemma RemoveFirstNoDup<T>(s: seq<T>, x: T)
    requires NoDup(s)
    ensures x !in RemoveFirst(s, x)
    ensures NoDup(RemoveFirst(s, x))
  {
    var i := IndexOf(s, x);
    if i != -1 {
      var r := s[..i] + s[i + 1..];
      assert RemoveFirst(s, x) == r;
      forall k | 0 <= k < |r| ensures r[k] != x {
        assert r[k] == s[if k < i then k else k + 1];
      }
      forall a, b | 0 <= a < b < |r| ensures r[a] != r[b] {
        assert r[a] == s[if a < i then a else a + 1];
        assert r[b] == s[if b < i then b else b + 1];
      }
    }
  }

  /** Appending an element that is absent keeps a sequence duplicate-free. */
  lemma AppendNoDup<T>(s: seq<T>, x: T)
    requires NoDup(s) && x !in s
    ensures NoDup(s + [x])
  {
  }
}
