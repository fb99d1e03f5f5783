/** Datatypes and list operations that several parts of the model share. */
module Basics {

  datatype Option<+T> = None | Some(value: T)

  datatype Result<+T, +E> = Ok(value: T) | Err(error: E)

  /** The `moderationStatus` of a contributed row. */
  datatype ReviewStatus = PENDING | APPROVED | REJECTED

  /** The distinct elements of a list: a `Set` built from it. */
  function Elements<T>(s: seq<T>): set<T> {
    set x | x in s
  }

  ghost predicate Distinct<T>(s: seq<T>) {
    forall i, j :: 0 <= i < j < |s| ==> s[i] != s[j]
  }

  lemma EmptyOrHasMember<T>(s: seq<T>)
    ensures s == [] || s[0] in s
  {
  }

  /** `s.filter((x) => keys.includes(x))` */
  function Keep<T(==,!new)>(s: seq<T>, keys: seq<T>): (r: seq<T>)
    ensures forall x :: x in r <==> x in s && x in keys
    ensures |r| <= |s|
  {
    if s == [] then []
    else
      var rest := Keep(s[..|s| - 1], keys);
      assert s == s[..|s| - 1] + [s[|s| - 1]];
      if s[|s| - 1] in keys then rest + [s[|s| - 1]] else rest
  }

  /** `s.filter((x) => !keys.includes(x))` */
  function Drop<T(==,!new)>(s: seq<T>, keys: seq<T>): (r: seq<T>)
    ensures forall x :: x in r <==> x in s && x !in keys
    ensures |r| <= |s|
  {
    if s == [] then []
    else
      var rest := Drop(s[..|s| - 1], keys);
      assert s == s[..|s| - 1] + [s[|s| - 1]];
      if s[|s| - 1] in keys then rest else rest + [s[|s| - 1]]
  }

  lemma {:induction false} DropTwice<T(!new)>(s: seq<T>, keys: seq<T>)
    ensures Drop(Drop(s, keys), keys) == Drop(s, keys)
  {
    if s != [] {
      var rest := Drop(s[..|s| - 1], keys);
      DropTwice(s[..|s| - 1], keys);
      if s[|s| - 1] !in keys {
        assert Drop(s, keys)[..|Drop(s, keys)| - 1] == rest;
      }
    }
  }

  lemma SameElements<T(!new)>(s: seq<T>, t: seq<T>)
    ensures Elements(s) == Elements(t) <==> forall x :: x in s <==> x in t
  {
    assert forall x :: x in Elements(s) <==> x in s;
    assert forall x :: x in Elements(t) <==> x in t;
  }

  /** What was read so far, then the rest: an error in the rest is an error of the whole. */
  function Extend<T, E>(done: seq<T>, rest: Result<seq<T>, E>): Result<seq<T>, E> {
    match rest
    case Ok(more) => Ok(done + more)
    case Err(e) => Err(e)
  }

  lemma ExtendNothing<T, E>(rest: Result<seq<T>, E>)
    ensures Extend([], rest) == rest
  {
    if rest.Ok? {
      assert [] + rest.value == rest.value;
    }
  }

  lemma ExtendPush<T, E>(done: seq<T>, x: T, rest: Result<seq<T>, E>)
    ensures Extend(done, Extend([x], rest)) == Extend(done + [x], rest)
  {
    if rest.Ok? {
      assert done + ([x] + rest.value) == done + [x] + rest.value;
    }
  }

  lemma ExtendEnd<T, E>(done: seq<T>)
    ensures Extend<T, E>(done, Ok([])) == Ok(done)
  {
    assert done + [] == done;
  }
}
