/** Insertion into an ordered sequence, which stands for std::set in the timer queue and for
    std::sort in the hash ring. */
module Ordering {

  ghost predicate Ordered<T>(s: seq<T>, rel: (T, T) -> bool) {
    forall i, j :: 0 <= i < j < |s| ==> rel(s[i], s[j])
  }

  /** Puts `x` in front of the first element that it comes before. */
  function Insert<T>(less: (T, T) -> bool, s: seq<T>, x: T): (r: seq<T>)
    ensures |r| == |s| + 1
  {
    if s == [] || less(x, s[0]) then [x] + s else [s[0]] + Insert(less, s[1..], x)
  }

  lemma {:induction false} InsertMember<T>(less: (T, T) -> bool, s: seq<T>, x: T, y: T)
    ensures y in Insert(less, s, x) <==> y == x || y in s
  {
    if s != [] && !less(x, s[0]) {
      InsertMember(less, s[1..], x, y);
      assert s == [s[0]] + s[1..];
    }
  }

  /** `x` relates to the elements of `s` as its place among them says. */
  ghost predicate Placeable<T>(less: (T, T) -> bool, rel: (T, T) -> bool, s: seq<T>, x: T) {
    && (forall y :: y in s ==> if less(x, y) then rel(x, y) else rel(y, x))
    && (forall y, z :: y in s && z in s && less(x, y) && rel(y, z) ==> rel(x, z))
  }

  lemma {:induction false} InsertOrdered<T>(less: (T, T) -> bool, rel: (T, T) -> bool, s: seq<T>, x: T)
    requires Ordered(s, rel) && Placeable(less, rel, s, x)
    ensures Ordered(Insert(less, s, x), rel)
  {
    if s == [] {
    } else if less(x, s[0]) {
      forall i | 0 <= i < |s| ensures rel(x, s[i]) { assert i > 0 ==> rel(s[0], s[i]); }
    } else {
      var r := Insert(less, s[1..], x);
      assert forall y :: y in s[1..] ==> y in s;
      InsertOrdered(less, rel, s[1..], x);
      forall i | 0 <= i < |r| ensures rel(s[0], r[i]) {
        InsertMember(less, s[1..], x, r[i]);
        if r[i] != x {
          var j :| 0 <= j < |s[1..]| && s[1..][j] == r[i];
          assert s[j + 1] == r[i];
        }
      }
    }
  }
}
