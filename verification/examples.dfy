/**
 Concrete verdicts: the documented example of the matcher, the demonstration
 call that accompanies it, and small cases showing the subset semantics and
 the mismatches.
 */
module MatcherExamples {

  import opened Values
  import opened Structures
  import opened Matcher

  const StringTag: Structure := Tag(PString, false)
  const NumberTag: Structure := Tag(PNumber, false)
  const BooleanTag: Structure := Tag(PBoolean, false)
  const NullTag: Structure := Tag(PNull, false)

  /** The documented example: `{ a: 1, b: '2', c: [3, 4, [5, '6']] }`
      against `{ a: 'number', b: 'string', c: ['number', 'number',
      ['number', 'string']] }`. */
  lemma DocumentedExample()
    ensures Matches(
              Obj(map[
                "a" := Num(1),
                "b" := Str("2"),
                "c" := Arr([Num(3), Num(4), Arr([Num(5), Str("6")])])
              ]),
              Keyed(map[
                "a" := NumberTag,
                "b" := StringTag,
                "c" := Positional([NumberTag, NumberTag, Positional([NumberTag, StringTag])])
              ]))
  {
    var inner := Arr([Num(5), Str("6")]);
    var c := Arr([Num(3), Num(4), inner]);
    var cs := Positional([NumberTag, NumberTag, Positional([NumberTag, StringTag])]);
    assert Matches(inner, Positional([NumberTag, StringTag])) by {
      assert At(inner.items, 0) == Num(5) && At(inner.items, 1) == Str("6");
    }
    assert Matches(c, cs) by {
      assert At(c.items, 0) == Num(3) && At(c.items, 1) == Num(4) && At(c.items, 2) == inner;
    }
  }

  /** The demonstration call: nested objects, `any[]` over a mixed list,
      `number[]`, a boolean, a null and a positional list of four tags. */
  lemma DemonstrationCall()
    ensures Matches(
              Obj(map[
                "a" := Num(1),
                "b" := Str("2"),
                "c" := Arr([Num(3), Str("4"), Num(5)]),
                "d" := Obj(map[
                  "e" := Num(6),
                  "f" := Str("7"),
                  "g" := Arr([Num(8), Num(9), Num(10)])
                ]),
                "h" := Bool(true),
                "i" := Null,
                "j" := Arr([Num(0), Str("1"), Null, Bool(false)])
              ]),
              Keyed(map[
                "a" := NumberTag,
                "b" := StringTag,
                "c" := Tag(PAny, true),
                "d" := Keyed(map[
                  "e" := NumberTag,
                  "f" := StringTag,
                  "g" := Tag(PNumber, true)
                ]),
                "h" := BooleanTag,
                "i" := NullTag,
                "j" := Positional([NumberTag, StringTag, NullTag, BooleanTag])
              ]))
  {
  }

  /** Extra list elements and extra object keys are ignored. */
  lemma SubsetExamples()
    ensures Matches(Arr([Num(1), Num(2), Num(3), Num(4)]), Positional([NumberTag, NumberTag]))
    ensures Matches(Obj(map["a" := Num(1), "b" := Num(2)]), Keyed(map["a" := NumberTag]))
  {
  }

  /** Mismatches: a wrong scalar kind, a list or null where an object is
      expected, and a missing position that is not `any`. */
  lemma MismatchExamples()
    ensures !Matches(Obj(map["a" := Str("1")]), Keyed(map["a" := NumberTag]))
    ensures !Matches(Arr([Num(1), Num(2)]), Keyed(map["a" := NumberTag]))
    ensures !Matches(Null, Keyed(map["a" := NumberTag]))
    ensures !Matches(Arr([Num(1)]), Positional([NumberTag, NullTag]))
    ensures Matches(Arr([Num(1)]), Positional([NumberTag, Tag(PAny, false)]))
  {
    var m := map["a" := Str("1")];
    assert !Matches(Get(m, "a"), NumberTag);
    assert !Matches(At([Num(1)], 1), NullTag);
  }
}
