/**
 The structural matcher: whether a value matches a structure. `Matches` is
 the declarative reading of the rules, one conjunction per structure kind;
 `IsValidStructure` is the same decision with the loops and early returns
 of the TypeScript `isValidStructure`, proved to agree with `Matches` on
 every input.
 */
module Matcher {

  import opened Values
  import opened Structures

  /** A bare scalar tag (no list modifier): `any` accepts everything, `null`
      accepts only null (by strict equality, so not `undefined`), and the
      other three compare the value's `typeof` with the tag name, which
      amounts to accepting exactly the values of that kind. */
  predicate MatchesBase(v: Value, p: Prim)
    ensures MatchesBase(v, p) <==>
              || p == PAny
              || (p == PNull && v.Null?)
              || (p == PString && v.Str?)
              || (p == PNumber && v.Num?)
              || (p == PBoolean && v.Bool?)
  {
    if p == PAny then true
    else if p == PNull then v == Null
    else TypeOf(v) == PrimName(p)
  }

  /** Whether `v` matches structure `s`. A match forces the shape the
      structure asks for: a list for `T[]` and positional structures, an
      object for keyed ones, null for a `null` structure; an absent value
      matches only the bare `any` tag, and a malformed structure nothing. */
  predicate Matches(v: Value, s: Structure)
    ensures Matches(v, s) && (s.Positional? || (s.Tag? && s.isArray)) ==> v.Arr?
    ensures Matches(v, s) && s.Keyed? ==> v.Obj?
    ensures Matches(v, s) && s.NullNode? ==> v.Null?
    ensures Matches(v, s) ==> !s.Malformed?
    ensures Matches(v, s) && v.Undefined? ==> s == Tag(PAny, false)
    decreases s
  {
    match s
    case Tag(p, isArray) =>
      if isArray then
        // a list whose every element matches the bare tag
        v.Arr? && forall i :: 0 <= i < |v.items| ==> MatchesBase(v.items[i], p)
      else
        MatchesBase(v, p)
    case Positional(ss) =>
      // a list; each declared position matches, reading past the end as undefined
      v.Arr? && forall i :: 0 <= i < |ss| ==> Matches(At(v.items, i), ss[i])
    case Keyed(f) =>
      // an object that is neither a list nor null; each declared key matches
      && TypeOf(v) == "object" && !v.Arr? && v != Null
      && forall k :: k in f ==> Matches(Get(v.fields, k), f[k])
    case NullNode =>
      v == Null
    case Malformed =>
      false
  }

  /** The matcher as the TypeScript `isValidStructure` runs it: loops over
      the list elements, the structure's positions and the structure's keys,
      returning false at the first failure. The keys are visited in an arbitrary order, so the
      verdict does not depend on the order in which an object lists them. */
  method IsValidStructure(input: Value, structure: Structure) returns (ok: bool)
    ensures ok == Matches(input, structure)
    decreases structure
  {
    match structure {
      case Tag(p, isArray) =>
        if isArray {
          if !input.Arr? {
            return false;
          }
          var i := 0;
          while i < |input.items|
            invariant 0 <= i <= |input.items|
            invariant forall j :: 0 <= j < i ==> MatchesBase(input.items[j], p)
          {
            if !MatchesBase(input.items[i], p) {
              return false;
            }
            i := i + 1;
          }
          return true;
        }
        ok := MatchesBase(input, p);
      case Positional(ss) =>
        if !input.Arr? {
          return false;
        }
        var index := 0;
        while index < |ss|
          invariant 0 <= index <= |ss|
          invariant forall j :: 0 <= j < index ==> Matches(At(input.items, j), ss[j])
        {
          var valid := IsValidStructure(At(input.items, index), ss[index]);
          if !valid {
            return false;
          }
          index := index + 1;
        }
        return true;
      case Keyed(f) =>
        if TypeOf(input) != "object" || input.Arr? || input == Null {
          return false;
        }
        var pending := f.Keys;
        while pending != {}
          invariant pending <= f.Keys
          invariant forall k :: k in f && k !in pending ==> Matches(Get(input.fields, k), f[k])
          decreases pending
        {
          var key :| key in pending;
          var valid := IsValidStructure(Get(input.fields, key), f[key]);
          if !valid {
            return false;
          }
          pending := pending - {key};
        }
        return true;
      case NullNode =>
        ok := input == Null;
      case Malformed =>
        ok := false;
    }
  }
}
