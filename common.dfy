/** Small failure-carrying datatypes shared by every module of the model. */
module Common {

  datatype Option<+T> = None | Some(value: T) {
    function GetOr(default: T): T {
      match this
      case Some(v) => v
      case None => default
    }
  }

  datatype Result<+R, +E> = Ok(value: R) | Err(error: E)

  /** 2^n, used by every exponential back-off schedule in the client. */
  function Pow2(n: nat): (r: nat)
    ensures r >= 1
  {
    if n == 0 then 1 else 2 * Pow2(n - 1)
  }

  function Min(a: int, b: int): int {
    if a <= b then a else b
  }

  /** ceil(a / b) for a positive divisor: what `Math.ceil(a / b)` gives on whole numbers. */
  function CeilDiv(a: nat, b: nat): (q: nat)
    requires b > 0
    ensures q * b >= a
    ensures q == 0 || (q - 1) * b < a
    decreases a
  {
    if a == 0 then 0 else if a <= b then 1 else 1 + CeilDiv(a - b, b)
  }

  function Last<T>(p: seq<T>): T requires |p| > 0 { p[|p| - 1] }
  function AllButLast<T>(p: seq<T>): seq<T> requires |p| > 0 { p[..|p| - 1] }

  /** A non-empty sequence is the rest followed by its last element. */
  lemma LastSplit<T>(p: seq<T>)
    requires |p| > 0
    ensures AllButLast(p) + [Last(p)] == p
  {
  }

  lemma SnocParts<T>(p: seq<T>, x: T)
    ensures AllButLast(p + [x]) == p && Last(p + [x]) == x
  {
  }

  lemma TakeNext<T>(p: seq<T>, k: nat)
    requires k < |p|
    ensures p[..k + 1] == p[..k] + [p[k]]
  {
  }

  lemma Singleton<T>(p: seq<T>)
    requires |p| == 1
    ensures p == [p[0]] && AllButLast(p) == [] && Last(p) == p[0]
  {
  }

  lemma AppendEmpty<T>(p: seq<T>)
    ensures p + [] == p && [] + p == p
  {
  }

  lemma DropFirst<T>(p: seq<T>, n: nat, x: T, later: seq<T>)
    requires n <= |p| && p[n..] == [x] + later
    ensures n < |p| && p[n] == x && p[n + 1..] == later
  {
    assert p[n..][0] == x;
    assert p[n + 1..] == p[n..][1..];
  }

  lemma TakeDrop<T>(p: seq<T>, n: nat)
    requires n <= |p|
    ensures p[..n] + p[n..] == p && p[..|p|] == p
  {
  }

  lemma DropNext<T>(p: seq<T>, k: nat)
    requires k < |p|
    ensures p[k..][0] == p[k] && p[k..][1..] == p[k + 1..]
  {
  }

  lemma AppendAssoc<T>(a: seq<T>, b: seq<T>, c: seq<T>)
    ensures (a + b) + c == a + (b + c)
  {
  }

  /** Concatenation of a sequence of sequences, e.g. of string chunks. */
  function Flatten<T>(parts: seq<seq<T>>): seq<T>
  {
    if |parts| == 0 then [] else parts[0] + Flatten(parts[1..])
  }

  lemma {:induction false} FlattenAppend<T>(a: seq<seq<T>>, b: seq<seq<T>>)
    ensures Flatten(a + b) == Flatten(a) + Flatten(b)
  {
    if |a| == 0 {
      assert a + b == b;
    } else {
      assert (a + b)[1..] == a[1..] + b;
      FlattenAppend(a[1..], b);
    }
  }
}
