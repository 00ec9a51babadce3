/** Small shared vocabulary: optional values, grid positions and
    duplicate-free sequences. */
module Common {

  /** A value that may be absent (Python's `None`, or a falsy argument). */
  datatype Option<T> = None | Some(value: T) {
    function GetOr(default: T): T {
      match this
      case Some(v) => v
      case None => default
    }
  }

  /** A grid cell, the `{"x": .., "y": ..}` dictionaries of the backend. */
  datatype Position = Position(x: int, y: int)

  const Origin: Position := Position(0, 0)

  /** No element occurs twice. */
  predicate NoDup<T(==)>(s: seq<T>) {
    forall i, j :: 0 <= i < j < |s| ==> s[i] != s[j]
  }

  function Elements<T>(s: seq<T>): set<T> {
    set x | x in s
  }

  /** Appending a fresh element keeps a sequence duplicate-free. */
  lemma NoDupAppend<T>(s: seq<T>, x: T)
    requires NoDup(s) && x !in s
    ensures NoDup(s + [x])
  {
    var t := s + [x];
    forall i, j | 0 <= i < j < |t| ensures t[i] != t[j] {
      if j == |s| {
        assert t[i] == s[i];
      } else {
        assert t[i] == s[i] && t[j] == s[j];
      }
    }
  }

  /** `list(set(xs))`: the elements of a set, each once, in an order the
      model leaves open (Python's set iteration order is unspecified). */
  method Enumerate<T>(s: set<T>) returns (xs: seq<T>)
    ensures NoDup(xs)
    ensures forall x :: x in xs <==> x in s
  {
    xs := [];
    var remaining := s;
    while remaining != {}
      invariant remaining <= s
      invariant NoDup(xs)
      invariant forall x :: x in xs <==> x in s - remaining
      decreases remaining
    {
      var x :| x in remaining;
      NoDupAppend(xs, x);
      xs := xs + [x];
      remaining := remaining - {x};
    }
  }
}
