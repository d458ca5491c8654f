/** Types shared by the models of the pipeline's components. */
module Common {
  datatype Option<+T> = None | Some(value: T)

  /** One octet of an H.264 byte stream or of a printed string. */
  type byte = b: int | 0 <= b < 256

  /** A floating-point input: a real number, or an infinity or NaN. */
  datatype Float = NonFinite | Finite(r: real)

  const NANOS_PER_SECOND := 1_000_000_000

  /** A number as its decimal digits. */
  function Decimal(n: nat): seq<byte> {
    if n < 10 then [48 + n] else Decimal(n / 10) + [48 + n % 10]
  }

  lemma Assoc<T>(a: seq<T>, b: seq<T>, c: seq<T>)
    ensures a + (b + c) == (a + b) + c
  {}

  /** The values that are present, in order. */
  function Somes<T>(s: seq<Option<T>>): seq<T> {
    if s == [] then []
    else
      var n := |s| - 1;
      Somes(s[..n]) + (match s[n] case None => [] case Some(x) => [x])
  }

  lemma {:induction false} SomesMembers<T>(s: seq<Option<T>>, x: T)
    ensures x in Somes(s) <==> Some(x) in s
  {
    if s != [] {
      var n := |s| - 1;
      SomesMembers(s[..n], x);
      assert s == s[..n] + [s[n]];
    }
  }

  /** The elements that meet a condition, in order and as often as they occur. */
  function Filter<T>(s: seq<T>, p: T -> bool): seq<T> {
    if s == [] then []
    else
      var n := |s| - 1;
      Filter(s[..n], p) + (if p(s[n]) then [s[n]] else [])
  }

  lemma {:induction false} FilterMembers<T>(s: seq<T>, p: T -> bool, x: T)
    ensures x in Filter(s, p) <==> x in s && p(x)
    ensures multiset(Filter(s, p))[x] == if p(x) then multiset(s)[x] else 0
  {
    if s != [] {
      var n := |s| - 1;
      FilterMembers(s[..n], p, x);
      assert s == s[..n] + [s[n]];
    }
  }
}
