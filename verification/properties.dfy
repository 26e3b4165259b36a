/**
 What the matcher promises, stated against the declarative `Matches`:
 the meaning of each scalar tag, the list modifier, the positional and keyed
 structures (both of which ignore whatever the structure does not mention),
 the treatment of `undefined`, and the fact that loosening a structure never
 turns a match into a mismatch.
 */
module MatcherProperties {

  import opened Values
  import opened Structures
  import opened Matcher

  /** The bare `any` tag. */
  const AnyTag: Structure := Tag(PAny, false)

  // ---------------------------------------------------------------------
  // Scalar tags

  /** `any` accepts every value: scalars, null, lists, objects and even an
      absent element or key. */
  lemma AnyAcceptsEverything(v: Value)
    ensures Matches(v, AnyTag)
  {
  }

  /** `null` accepts null and nothing else; in particular not `undefined`. */
  lemma NullTagExactlyNull(v: Value)
    ensures Matches(v, Tag(PNull, false)) <==> v == Null
  {
  }

  /** `string`, `number` and `boolean` accept exactly the values of that
      kind: null, lists and objects (typeof "object") and `undefined` are
      all rejected. */
  lemma KindTagsExactKind(v: Value)
    ensures Matches(v, Tag(PString, false)) <==> v.Str?
    ensures Matches(v, Tag(PNumber, false)) <==> v.Num?
    ensures Matches(v, Tag(PBoolean, false)) <==> v.Bool?
  {
  }

  /** An absent element or key satisfies only the bare `any` tag: every other
      tag, every list modifier and every positional, keyed or null structure
      rejects it. */
  lemma UndefinedMatchesOnlyAny(s: Structure)
    ensures Matches(Undefined, s) <==> s == AnyTag
  {
  }

  /** A `null` given as a structure accepts null and nothing else, like the
      `null` tag. */
  lemma NullStructureExactlyNull(v: Value)
    ensures Matches(v, NullNode) <==> v == Null
    ensures Matches(v, NullNode) <==> Matches(v, Tag(PNull, false))
  {
  }

  /** A structure that is neither a string, an object nor null matches
      nothing. */
  lemma MalformedMatchesNothing(v: Value)
    ensures !Matches(v, Malformed)
  {
  }

  // ---------------------------------------------------------------------
  // The list modifier

  /** A tag with the list modifier rejects everything that is not a list. */
  lemma ListTagRejectsNonList(v: Value, p: Prim)
    requires !v.Arr?
    ensures !Matches(v, Tag(p, true))
  {
  }

  /** On a list, `T[]` holds exactly when every element matches the bare
      tag `T` as a structure of its own. */
  lemma ListTagElementwise(xs: seq<Value>, p: Prim)
    ensures Matches(Arr(xs), Tag(p, true)) <==>
              forall i :: 0 <= i < |xs| ==> Matches(xs[i], Tag(p, false))
  {
  }

  /** The empty list matches every `T[]`, and `any[]` matches every list. */
  lemma ListTagEmptyAndAny(xs: seq<Value>, p: Prim)
    ensures Matches(Arr([]), Tag(p, true))
    ensures Matches(Arr(xs), Tag(PAny, true))
  {
  }

  /** `T[]` holds of a concatenation exactly when it holds of both parts. */
  lemma ListTagConcat(xs: seq<Value>, ys: seq<Value>, p: Prim)
    ensures Matches(Arr(xs + ys), Tag(p, true)) <==>
              Matches(Arr(xs), Tag(p, true)) && Matches(Arr(ys), Tag(p, true))
  {
    var zs := xs + ys;
    if Matches(Arr(xs), Tag(p, true)) && Matches(Arr(ys), Tag(p, true)) {
      forall i | 0 <= i < |zs|
        ensures MatchesBase(zs[i], p)
      {
        if i < |xs| {
          assert zs[i] == xs[i];
        } else {
          assert zs[i] == ys[i - |xs|];
        }
      }
    }
    if Matches(Arr(zs), Tag(p, true)) {
      forall i | 0 <= i < |xs|
        ensures MatchesBase(xs[i], p)
      {
        assert zs[i] == xs[i];
      }
      forall i | 0 <= i < |ys|
        ensures MatchesBase(ys[i], p)
      {
        assert zs[|xs| + i] == ys[i];
      }
    }
  }

  // ---------------------------------------------------------------------
  // Positional structures

  /** A positional structure rejects everything that is not a list. */
  lemma PositionalRejectsNonList(v: Value, ss: seq<Structure>)
    requires !v.Arr?
    ensures !Matches(v, Positional(ss))
  {
  }

  /** Elements past the structure's last position are never looked at:
      appending to a matching list keeps it matching. */
  lemma PositionalIgnoresExtraElements(xs: seq<Value>, ys: seq<Value>, ss: seq<Structure>)
    requires Matches(Arr(xs), Positional(ss))
    ensures Matches(Arr(xs + ys), Positional(ss))
  {
  }

  /** A list shorter than its positional structure matches exactly when
      its own positions match and every position past its end is the bare
      `any` tag, the only one an absent element satisfies. */
  lemma PositionalShortList(xs: seq<Value>, ss: seq<Structure>)
    requires |xs| <= |ss|
    ensures Matches(Arr(xs), Positional(ss)) <==>
              && Matches(Arr(xs), Positional(ss[..|xs|]))
              && forall i :: |xs| <= i < |ss| ==> ss[i] == AnyTag
  {
  }

  // ---------------------------------------------------------------------
  // Keyed structures

  /** A keyed structure rejects lists, null, scalars and `undefined`. */
  lemma KeyedRejectsNonObject(v: Value, f: map<string, Structure>)
    requires !v.Obj?
    ensures !Matches(v, Keyed(f))
  {
  }

  /** Keys the structure does not mention are never looked at: adding,
      replacing or removing such a key does not change the verdict. */
  lemma KeyedIgnoresOtherKeys(m: map<string, Value>, key: string, x: Value,
                              f: map<string, Structure>)
    requires key !in f
    ensures Matches(Obj(m[key := x]), Keyed(f)) <==> Matches(Obj(m), Keyed(f))
    ensures Matches(Obj(m - {key}), Keyed(f)) <==> Matches(Obj(m), Keyed(f))
  {
  }

  /** An object lacking a key the structure mentions can match only when
      that key's structure is the bare `any` tag. */
  lemma KeyedMissingKey(m: map<string, Value>, f: map<string, Structure>, key: string)
    requires key in f && key !in m
    ensures Matches(Obj(m), Keyed(f)) ==> f[key] == AnyTag
  {
    if Matches(Obj(m), Keyed(f)) {
      assert Matches(Get(m, key), f[key]);
      UndefinedMatchesOnlyAny(f[key]);
    }
  }

  // ---------------------------------------------------------------------
  // Loosening a structure

  /** `t` is a loosening of `s`: obtained from it by replacing parts with
      `any`, a `T[]` with `any[]`, a `null` structure with the `null` tag
      (or back), truncating positional structures or dropping keys, at any
      depth. A structure that matches nothing loosens to anything. */
  predicate Loosens(s: Structure, t: Structure)
    decreases s
  {
    || s == t
    || t == AnyTag
    || s.Malformed?
    || (s == NullNode && t == Tag(PNull, false))
    || (s == Tag(PNull, false) && t == NullNode)
    || (s.Tag? && s.isArray && t == Tag(PAny, true))
    || (&& s.Positional? && t.Positional?
        && |t.items| <= |s.items|
        && forall i :: 0 <= i < |t.items| ==> Loosens(s.items[i], t.items[i]))
    || (&& s.Keyed? && t.Keyed?
        && t.fields.Keys <= s.fields.Keys
        && forall k :: k in t.fields ==> Loosens(s.fields[k], t.fields[k]))
  }

  /** Loosening a structure preserves a match: the checks are a conjunction
      over the structure's entries, so fewer or weaker entries can only
      accept more. */
  lemma {:induction false} LoosenPreservesMatch(v: Value, s: Structure, t: Structure)
    requires Loosens(s, t)
    requires Matches(v, s)
    ensures Matches(v, t)
    decreases s
  {
    if && s.Positional? && t.Positional?
       && |t.items| <= |s.items|
       && forall i :: 0 <= i < |t.items| ==> Loosens(s.items[i], t.items[i])
    {
      forall i | 0 <= i < |t.items|
        ensures Matches(At(v.items, i), t.items[i])
      {
        LoosenPreservesMatch(At(v.items, i), s.items[i], t.items[i]);
      }
    } else if && s.Keyed? && t.Keyed?
              && t.fields.Keys <= s.fields.Keys
              && forall k :: k in t.fields ==> Loosens(s.fields[k], t.fields[k])
    {
      forall k | k in t.fields
        ensures Matches(Get(v.fields, k), t.fields[k])
      {
        LoosenPreservesMatch(Get(v.fields, k), s.fields[k], t.fields[k]);
      }
    }
  }

  /** Dropping a key from a keyed structure keeps a match. */
  lemma DropKeyPreservesMatch(v: Value, f: map<string, Structure>, key: string)
    requires Matches(v, Keyed(f))
    ensures Matches(v, Keyed(f - {key}))
  {
    assert Loosens(Keyed(f), Keyed(f - {key}));
    LoosenPreservesMatch(v, Keyed(f), Keyed(f - {key}));
  }

  /** Truncating a positional structure keeps a match. */
  lemma TruncatePreservesMatch(v: Value, ss: seq<Structure>, n: nat)
    requires n <= |ss|
    requires Matches(v, Positional(ss))
    ensures Matches(v, Positional(ss[..n]))
  {
    assert Loosens(Positional(ss), Positional(ss[..n]));
    LoosenPreservesMatch(v, Positional(ss), Positional(ss[..n]));
  }
}
