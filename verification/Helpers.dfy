/** Stock facts about numbers, sets and sequences that several components use. */
module Helpers {

  type byte = n: nat | n < 256

  function Min(a: int, b: int): (r: int) {
    if a < b then a else b
  }

  function Max(a: int, b: int): (r: int) {
    if a > b then a else b
  }

  lemma Append3<T>(a: seq<T>, b: seq<T>, c: seq<T>)
    ensures a + b + c == a + (b + c)
  {}

  ghost function Any<T>(s: set<T>): (x: T)
    requires s != {}
    ensures x in s
  {
    var x :| x in s;
    x
  }

  lemma {:induction false} CardMono<T>(a: set<T>, b: set<T>)
    requires a <= b
    ensures |a| <= |b|
    decreases |a|
  {
    if a != {} {
      var x :| x in a;
      CardMono(a - {x}, b - {x});
    }
  }

  lemma SameCard<T>(a: set<T>, b: set<T>)
    requires a <= b && |a| == |b|
    ensures a == b
  {
    assert b == a + (b - a);
    assert |b - a| == 0;
  }

  // The numbers below n.
  function Range(n: nat): (r: set<int>)
    ensures forall i :: i in r <==> 0 <= i < n
    ensures |r| == n
  {
    if n == 0 then {} else Range(n - 1) + {n - 1}
  }
}
