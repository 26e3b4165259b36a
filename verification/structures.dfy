/**
 Structure descriptions: the shapes a value is checked against. A structure
 is a scalar tag (one of five base names, optionally with the `[]` "list of"
 modifier), a positional list of structures, or a keyed map of structures.
 The tag string is decoded once into a base and a flag instead of being
 split on every call.
 */
module Structures {

  import opened Wrappers

  /** The five base tag names a scalar tag may carry. */
  datatype Prim = PString | PNumber | PBoolean | PNull | PAny

  /** A structure node.
      - `Tag(base, isArray)`: `"number"` is `Tag(PNumber, false)`,
        `"number[]"` is `Tag(PNumber, true)`.
      - `Positional(items)`: a list of structures, matched index by index.
      - `Keyed(fields)`: an object of structures, matched key by key.
      - `NullNode`: a `null` given as a structure; outside the declared
        structure type, but the matcher gives it a meaning of its own.
      - `Malformed`: any other non-string, non-object structure (a number,
        a boolean, `undefined`, ...), which never matches. */
  datatype Structure =
    | Tag(base: Prim, isArray: bool)
    | Positional(items: seq<Structure>)
    | Keyed(fields: map<string, Structure>)
    | NullNode
    | Malformed

  /** The literal name of a base tag, as written in a structure. */
  function PrimName(p: Prim): string
  {
    match p
    case PString => "string"
    case PNumber => "number"
    case PBoolean => "boolean"
    case PNull => "null"
    case PAny => "any"
  }

  /** The list-modifier suffix. */
  const ListSuffix: string := "[]"

  /** The tag string a scalar tag is written as: the base name, followed by
      `[]` when the list modifier is set. */
  function TagText(p: Prim, isArray: bool): (t: string)
    ensures |t| == |PrimName(p)| + (if isArray then 2 else 0)
    ensures t[..|PrimName(p)|] == PrimName(p)
  {
    PrimName(p) + (if isArray then ListSuffix else "")
  }

  /** The base tag named by a string, if it names one. */
  function BaseNamed(name: string): (r: Option<Prim>)
    ensures r.Some? ==> PrimName(r.value) == name
  {
    if name == "string" then Some(PString)
    else if name == "number" then Some(PNumber)
    else if name == "boolean" then Some(PBoolean)
    else if name == "null" then Some(PNull)
    else if name == "any" then Some(PAny)
    else None
  }

  /** Decodes one of the ten declared tag strings into a scalar tag node:
      a trailing `[]` sets the list modifier and the rest must be a base
      name. Any other string is `None`. */
  function DecodeTag(t: string): (r: Option<Structure>)
    ensures r.Some? ==> r.value.Tag?
  {
    if |t| >= 2 && t[|t| - 2..] == ListSuffix then
      match BaseNamed(t[..|t| - 2])
      case Some(p) => Some(Tag(p, true))
      case None => None
    else
      match BaseNamed(t)
      case Some(p) => Some(Tag(p, false))
      case None => None
  }

  /** Every base name is recognised as that base. */
  lemma BaseNamedPrimName(p: Prim)
    ensures BaseNamed(PrimName(p)) == Some(p)
  {
  }

  /** No base name ends in the list suffix. */
  lemma PrimNameNotList(p: Prim)
    ensures |PrimName(p)| >= 2
    ensures PrimName(p)[|PrimName(p)| - 2..] != ListSuffix
  {
    var n := PrimName(p);
    assert n[|n| - 1] != ']';
    assert ListSuffix[1] == ']';
  }

  /** Decoding the text of a tag gives back that tag. */
  lemma DecodeTagText(p: Prim, isArray: bool)
    ensures DecodeTag(TagText(p, isArray)) == Some(Tag(p, isArray))
  {
    var n := PrimName(p);
    var t := TagText(p, isArray);
    BaseNamedPrimName(p);
    if isArray {
      assert t == n + ListSuffix;
      assert t[|t| - 2..] == ListSuffix;
      assert t[..|t| - 2] == n;
    } else {
      assert t == n;
      PrimNameNotList(p);
    }
  }

  /** A string decodes to a tag only if it is that tag's text: the ten
      declared tag strings are the only ones accepted. */
  lemma DecodeTagOnlyText(t: string)
    ensures DecodeTag(t).Some? ==>
              TagText(DecodeTag(t).value.base, DecodeTag(t).value.isArray) == t
  {
    if |t| >= 2 && t[|t| - 2..] == ListSuffix {
      if BaseNamed(t[..|t| - 2]).Some? {
        assert t == t[..|t| - 2] + t[|t| - 2..];
      }
    }
  }
}
