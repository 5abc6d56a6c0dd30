/** What several modules share: the optional value, used where the source returns a success flag
    beside an out-parameter, and the swap-with-last removal of its tables. */
module Wrappers {
  datatype Option<+T> = None | Some(value: T)

  /** The last element moves into the hole. */
  function SwapRemoved<T>(s: seq<T>, i: nat): (r: seq<T>)
    requires i < |s|
    ensures |r| == |s| - 1
    ensures forall j :: 0 <= j < |r| ==> r[j] == if j == i then s[|s| - 1] else s[j]
  {
    s[i := s[|s| - 1]][..|s| - 1]
  }

  /** A part is no bigger than the whole. */
  lemma SubsetSize<T>(a: set<T>, b: set<T>)
    requires a <= b
    ensures |a| <= |b|
  {
    assert b == a + (b - a);
  }

  function Digit(d: nat): (c: char)
    requires d < 10
    ensures '0' <= c <= '9' && c as int - '0' as int == d
  {
    "0123456789"[d]
  }

  /** A number in decimal, without leading zeros. */
  function Text(n: nat): (s: string)
    ensures s != "" && forall c :: c in s ==> '0' <= c <= '9'
  {
    if n < 10 then [Digit(n)] else Text(n / 10) + [Digit(n % 10)]
  }

  /** No more than k digits below the k-th power of ten. */
  lemma {:induction false} TextLength(n: nat, k: nat)
    requires k > 0 && n < Power10(k)
    ensures |Text(n)| <= k
  {
    if n >= 10 { TextLength(n / 10, k - 1); }
  }

  function Power10(k: nat): nat { if k == 0 then 1 else 10 * Power10(k - 1) }
}
