/** Small shared vocabulary: an optional value, and what it means for a
    sequence to list the keys of an unordered container exactly once. */
module Common {

  datatype Option<T> = None | Some(value: T)

  /** No element occurs twice. */
  ghost predicate Distinct<T>(s: seq<T>) {
    forall i, j :: 0 <= i < j < |s| ==> s[i] != s[j]
  }

  /** `order` is one iteration order of the set `keys`: every key once, nothing else. */
  ghost predicate Enumerates<T>(order: seq<T>, keys: set<T>) {
    && Distinct(order)
    && (forall i :: 0 <= i < |order| ==> order[i] in keys)
    && (forall x :: x in keys ==> x in order)
  }

  /** An iteration order visits as many elements as the container holds. */
  lemma {:induction false} EnumerationLength<T>(order: seq<T>, keys: set<T>)
    requires Enumerates(order, keys)
    ensures |order| == |keys|
  {
    if order != [] {
      var last := order[|order| - 1];
      var front := order[..|order| - 1];
      assert forall x :: x in front ==> x != last by {
        forall x | x in front ensures x != last {
          var i :| 0 <= i < |front| && front[i] == x;
          assert order[i] == x;
        }
      }
      assert forall x :: x in front <==> x in keys - {last} by {
        forall x ensures x in front <==> x in keys - {last} {
          if x in front {
            var i :| 0 <= i < |front| && front[i] == x;
            assert order[i] == x;
          }
          if x in keys - {last} {
            assert x in order;
            var i :| 0 <= i < |order| && order[i] == x;
            assert front[i] == x;
          }
        }
      }
      EnumerationLength(front, keys - {last});
    }
  }

  /** Some element of a non-empty set: the next key an unordered container
      yields, in an order nobody relies on. */
  method Pick<T>(s: set<T>) returns (x: T)
    requires s != {}
    ensures x in s
  {
    x :| x in s;
  }

  function Min(a: int, b: int): int {
    if a <= b then a else b
  }
}
