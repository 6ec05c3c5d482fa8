/** Python's ordering of `str` values (by code point) and `sorted` over a set of them. */
module Ordering {

  /** A Python call that returns a value or raises. */
  datatype Result<+T, +E> = Ok(value: T) | Raise(error: E) {
    predicate IsFailure() {
      Raise?
    }

    function PropagateFailure<U>(): Result<U, E>
      requires Raise?
    {
      Raise(error)
    }

    function Extract(): T
      requires Ok?
    {
      value
    }
  }

  datatype Option<+T> = None | Some(value: T)

  /** `a < b` for Python strings. */
  predicate Less(a: string, b: string) {
    b != [] && (a == [] || a[0] < b[0] || (a[0] == b[0] && Less(a[1..], b[1..])))
  }

  predicate AtMost(a: string, b: string) {
    a == b || Less(a, b)
  }

  /** `b` goes on or has the greater character where the two first differ. */
  ghost predicate LessAt(a: string, b: string, k: nat) {
    k <= |a| && k < |b| && a[..k] == b[..k] && (k == |a| || a[k] < b[k])
  }

  lemma LessAtNext(a: string, b: string, k: nat)
    requires a != [] && b != []
    ensures LessAt(a, b, k + 1) <==> a[0] == b[0] && LessAt(a[1..], b[1..], k)
  {
    if k < |a| && k + 1 < |b| {
      assert a[..k + 1] == [a[0]] + a[1..][..k] && b[..k + 1] == [b[0]] + b[1..][..k];
      assert a[..k + 1] == b[..k + 1] <==> a[0] == b[0] && a[1..][..k] == b[1..][..k] by {
        assert a[..k + 1][1..] == a[1..][..k] && b[..k + 1][1..] == b[1..][..k];
      }
    }
  }

  lemma {:induction false} LessIff(a: string, b: string)
    ensures Less(a, b) <==> exists k: nat :: LessAt(a, b, k)
  {
    assert LessAt(a, b, 0) <==> b != [] && (a == [] || a[0] < b[0]) by { assert a[..0] == b[..0]; }
    if a != [] && b != [] {
      LessIff(a[1..], b[1..]);
      if k: nat :| LessAt(a, b, k) {
        if k > 0 { LessAtNext(a, b, k - 1); }
      }
      if k: nat :| LessAt(a[1..], b[1..], k) {
        LessAtNext(a, b, k);
      }
    } else if a != [] {
      assert forall k: nat :: !LessAt(a, b, k);
    } else if k: nat :| LessAt(a, b, k) {
      assert b != [];
    }
  }

  lemma {:induction false} LessTransitive(a: string, b: string, c: string)
    requires Less(a, b) && Less(b, c)
    ensures Less(a, c)
  {
    if a != [] && a[0] == b[0] && b[0] == c[0] {
      LessTransitive(a[1..], b[1..], c[1..]);
    }
  }

  lemma {:induction false} LessTotal(a: string, b: string)
    ensures Less(a, b) || a == b || Less(b, a)
    ensures !(Less(a, b) && Less(b, a))
    ensures a == b ==> !Less(a, b)
  {
    if a != [] && b != [] && a[0] == b[0] {
      LessTotal(a[1..], b[1..]);
      if a[1..] == b[1..] {
        assert a == [a[0]] + a[1..] && b == [b[0]] + b[1..];
      }
    }
  }

  ghost predicate IsLeast(x: string, names: set<string>) {
    x in names && forall y :: y in names ==> AtMost(x, y)
  }

  lemma LeastExists(names: set<string>) returns (x: string)
    requires names != {}
    ensures IsLeast(x, names)
  {
    x :| x in names;
    var rest := names - {x};
    assert names == rest + {x};
    if rest != {} {
      var first := x;
      var y := LeastExists(rest);
      LessTotal(first, y);
      x := if Less(y, first) then y else first;
      forall z | z in names ensures AtMost(x, z) {
        if z != first {
          assert z in rest;
          if y != z && Less(first, y) { LessTransitive(first, y, z); }
        }
      }
    }
  }

  /** Strictly increasing, hence without duplicates. */
  ghost predicate Increasing(s: seq<string>) {
    forall i, j :: 0 <= i < j < |s| ==> Less(s[i], s[j])
  }

  function Elements<T>(s: seq<T>): set<T> {
    set x | x in s
  }

  lemma EmptyElements<T>(s: seq<T>)
    ensures Elements(s) == {} <==> s == []
  {
    if s != [] {
      assert s[0] in Elements(s);
    }
  }

  lemma {:induction false} IncreasingUnique(a: seq<string>, b: seq<string>)
    requires Increasing(a) && Increasing(b) && Elements(a) == Elements(b)
    ensures a == b
  {
    EmptyElements(a);
    EmptyElements(b);
    if a != [] {
      assert a[0] in Elements(b);
      assert b[0] in Elements(a);
      LessTotal(a[0], b[0]);
      assert a[0] == b[0];
      assert Elements(a[1..]) == Elements(a) - {a[0]} by { TailElements(a); }
      assert Elements(b[1..]) == Elements(b) - {b[0]} by { TailElements(b); }
      IncreasingUnique(a[1..], b[1..]);
    }
  }

  lemma TailElements(a: seq<string>)
    requires a != [] && Increasing(a)
    ensures Elements(a[1..]) == Elements(a) - {a[0]}
  {
    forall x | x in a[1..] ensures x != a[0] {
      LessTotal(a[0], x);
    }
  }

  /** Insertion of one name into an increasing list. */
  function Insert(x: string, s: seq<string>): seq<string> {
    if s == [] then [x]
    else if Less(x, s[0]) then [x] + s
    else if x == s[0] then s
    else [s[0]] + Insert(x, s[1..])
  }

  lemma {:induction false} InsertIncreasing(x: string, s: seq<string>)
    requires Increasing(s)
    ensures Increasing(Insert(x, s)) && Elements(Insert(x, s)) == Elements(s) + {x}
  {
    if s == [] {
    } else if Less(x, s[0]) {
      forall i | 0 <= i < |s| ensures Less(x, s[i]) {
        if i > 0 { LessTransitive(x, s[0], s[i]); }
      }
    } else if x != s[0] {
      InsertIncreasing(x, s[1..]);
      LessTotal(x, s[0]);
      var t := Insert(x, s[1..]);
      assert Elements(s) == Elements(s[1..]) + {s[0]};
      assert Elements([s[0]] + t) == {s[0]} + Elements(t);
      forall j | 0 <= j < |t| ensures Less(s[0], t[j]) {
        assert t[j] in Elements(t);
        if t[j] != x {
          assert t[j] in s[1..];
        }
      }
    }
  }

  /** `sorted(set(names))`. */
  function SortedUnique(names: seq<string>): (r: seq<string>)
    ensures Increasing(r) && Elements(r) == Elements(names)
  {
    if names == [] then []
    else
      var rest := SortedUnique(names[1..]);
      InsertIncreasing(names[0], rest);
      assert Elements(names) == Elements(names[1..]) + {names[0]};
      Insert(names[0], rest)
  }
}
