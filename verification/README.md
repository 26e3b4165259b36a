# is-valid-structure, modelled in Dafny

`isValidStructure(input, structure)` decides whether a JSON-like value
matches a declarative shape. A structure is one of three things:

- a scalar tag: `string`, `number`, `boolean`, `null` or `any`, optionally
  with the `[]` "list of" modifier;
- a positional list of structures;
- a keyed object of structures.

The answer is a single boolean. Positional and keyed structures are
schema-driven subset checks. Extra list elements and extra object keys are
ignored. A missing element or key reads as `undefined`.

The model has five modules:

- `Values` (`values.dfy`) is the input domain. `Value` has `Str`, `Num`,
  `Bool`, `Null`, `Arr` and `Obj`, plus `Undefined` for JavaScript's
  `undefined`. `TypeOf` models JavaScript's `typeof`. `At` and `Get` model
  `input[index]` and `input[key]`.
- `Structures` (`structures.dfy`) holds `Structure`. A tag string is decoded
  once into `Tag(base, isArray)`. `DecodeTag` and `TagText` relate the ten
  declared tag strings to those nodes. `NullNode` and `Malformed` stand for a
  `null` structure and for any other non-string, non-object structure.
- `Matcher` (`matcher.dfy`) holds `Matches`, the declarative verdict. It also
  holds `IsValidStructure`, the same verdict computed with the loops and
  early returns of the TypeScript `isValidStructure`, proved equal to `Matches` on every input.
  For `T[]`, both check each element against the bare tag directly rather
  than by a recursive call; `ListTagElementwise` shows the two readings agree.
- `MatcherProperties` (`properties.dfy`) states what each kind of structure
  accepts. It also proves that loosening a structure (the `Loosens`
  relation) never turns a match into a mismatch.
- `MatcherExamples` (`examples.dfy`) holds concrete verdicts: the documented
  example, the demonstration call, and small subset and mismatch cases.

An absent element or key satisfies the bare `any` tag and nothing else, as
the code does. `any` returns true before anything is inspected; `null` uses
strict equality; `typeof undefined` is never a tag name; list, positional
and keyed structures reject non-lists and non-objects. The model does not
adopt the simpler policy that out-of-range positions always fail.
`UndefinedMatchesOnlyAny` states the rule. `PositionalShortList` and
`KeyedMissingKey` state its consequences.

## Model

| member | source | states |
|---|---|---|
| `Values.TypeOf` | src/index.ts:73 | `typeof` is "string", "number" and "boolean" exactly for strings, numbers and booleans, "object" exactly for null, lists and objects, and "undefined" exactly for the absent value |
| `Values.At` | src/index.ts:83 | a positional lookup yields one of the list's own elements or `undefined`, and `undefined` whenever the index is past the end |
| `Values.Get` | src/index.ts:98 | a keyed lookup yields one of the object's own field values or `undefined`, and `undefined` whenever the key is missing |
| `Matcher.MatchesBase` | src/index.ts:69-73 | a bare tag accepts everything for `any`, and otherwise exactly the values of its kind: null for `null`, strings, numbers or booleans for the other three |
| `Matcher.Matches` | src/index.ts:51-107 | a match forces the shape the structure asks for: a list for `T[]` and positional structures, an object for keyed ones, null for a `null` structure; an absent value matches only the bare `any` tag and a malformed structure matches nothing |
| `Structures.DecodeTagText` | src/index.ts:59-61 | decoding the text of any base tag, with or without `[]`, gives back that tag and modifier |
| `Structures.DecodeTagOnlyText` | src/index.ts:59-61 | a string decodes to a tag only if it is exactly that tag's text, so only the ten declared tag strings decode |
| `Matcher.IsValidStructure` | src/index.ts:51-107 | the loop-and-early-return matcher returns true exactly when the declarative `Matches` holds, whatever order the keys are visited in |
| `MatcherProperties.AnyAcceptsEverything` | src/index.ts:69 | the bare `any` tag accepts every value, including lists, objects, null and an absent element or key |
| `MatcherProperties.NullTagExactlyNull` | src/index.ts:71 | the `null` tag accepts null and nothing else, not even `undefined` |
| `MatcherProperties.KindTagsExactKind` | src/index.ts:73 | `string`, `number` and `boolean` each accept exactly the values of that kind; null, lists, objects and `undefined` are rejected |
| `MatcherProperties.UndefinedMatchesOnlyAny` | src/index.ts:63-106 | an absent value matches a structure if and only if that structure is the bare `any` tag |
| `MatcherProperties.NullStructureExactlyNull` | src/index.ts:77 | a `null` structure accepts exactly null, the same values as the `null` tag |
| `MatcherProperties.MalformedMatchesNothing` | src/index.ts:106 | a structure that is not a string, object or null matches no value |
| `MatcherProperties.ListTagRejectsNonList` | src/index.ts:63-64 | a tag with `[]` rejects every non-list |
| `MatcherProperties.ListTagElementwise` | src/index.ts:63-66 | on a list, `T[]` holds if and only if every element matches the bare tag `T` as a structure |
| `MatcherProperties.ListTagEmptyAndAny` | src/index.ts:66 | the empty list matches every `T[]`, and `any[]` matches every list |
| `MatcherProperties.ListTagConcat` | src/index.ts:66 | `T[]` holds of a concatenation if and only if it holds of both parts |
| `MatcherProperties.PositionalRejectsNonList` | src/index.ts:79-80 | a positional structure rejects every non-list |
| `MatcherProperties.PositionalIgnoresExtraElements` | src/index.ts:82-88 | appending elements to a matching list keeps it matching |
| `MatcherProperties.PositionalShortList` | src/index.ts:82-86 | a list shorter than its structure matches if and only if its own positions match and every later position is the bare `any` tag |
| `MatcherProperties.KeyedRejectsNonObject` | src/index.ts:91-95 | a keyed structure rejects lists, null, scalars and `undefined` |
| `MatcherProperties.KeyedIgnoresOtherKeys` | src/index.ts:97-103 | adding, replacing or removing a key the structure does not mention leaves the verdict unchanged |
| `MatcherProperties.KeyedMissingKey` | src/index.ts:97-101 | an object without a key the structure mentions matches only if that key's structure is the bare `any` tag |
| `MatcherProperties.LoosenPreservesMatch` | src/index.ts:63-106 | a value that matches a structure also matches every loosening of it: parts replaced by `any`, `T[]` by `any[]`, positions truncated or keys dropped, at any depth |
| `MatcherProperties.DropKeyPreservesMatch` | src/index.ts:97-101 | dropping a key from a keyed structure keeps a match |
| `MatcherProperties.TruncatePreservesMatch` | src/index.ts:82-86 | truncating a positional structure keeps a match |
| `MatcherExamples.DocumentedExample` | src/index.ts:33-48 | the documented nested example matches |
| `MatcherExamples.DemonstrationCall` | src/index.ts:110-138 | the demonstration call's value matches its structure |
| `MatcherExamples.SubsetExamples` | src/index.ts:79-103 | extra trailing list elements and extra object keys are ignored |
| `MatcherExamples.MismatchExamples` | src/index.ts:73-101 | a wrong scalar kind, a list or null against a keyed structure, and a missing non-`any` position all fail; a missing `any` position succeeds |

## Left out

- Tag strings outside the ten declared ones. `DecodeTag` returns `None` for them, and structures are built only from decoded tags. The TypeScript `isValidStructure` still gives them a meaning through `split('[]')` (src/index.ts:59-61). `'object'` has no `[]`, so line 73 compares `typeof` with it and it accepts null, lists and objects. `'number[][]'` splits into three pieces; the destructuring keeps the first two, so it behaves exactly like `'number[]'`. `'[]'` splits into two empty pieces, both of which become `true`. The list modifier is then set and every element is checked against the boolean structure `true`, which falls through to line 106 and fails. So `'[]'` accepts exactly the empty list, and no `typeof` comparison takes place.
- JavaScript number semantics (NaN, Infinity, floating point). Numbers carry an `int` payload, because only the kind of a number is inspected.
- Prototype-chain lookups through `input[key]`, such as a key named `toString`. A key is present only if the object itself holds it.
- Sparse arrays and explicitly stored `undefined`. `Undefined` stored in a list or object reads the same as a missing element or key, as the positional and keyed lookups (src/index.ts:83, 98) also see it. Holes in a sparse array are not modelled: `every` (src/index.ts:66) skips holes, so `[ , ]` passes `'number[]'` while `[undefined]` does not. Neither is a JSON-like value.
- The `main()` demonstration and its console output. Only its data is kept, as `DemonstrationCall`.
- TypeScript's generic type-level constraints on the arguments.
- Purity and idempotence. They hold by construction: every member is a pure function of its arguments.
- Cyclic structures. Dafny datatypes are finite trees.
