/** The two pairing helpers of the word card (src/components/word-card.tsx):
    Nepali and English texts of a sense group zipped by position to the longer
    list, the shorter side padded with empty strings. */
module WordCard {
  import opened Common
  import opened Entries

  datatype Pair = Pair(nepali: string, english: string)

  /** `list[i] || ""`: the text at `i`, or the empty string past the end. */
  function At(s: seq<string>, i: nat): string {
    if i < |s| then s[i] else ""
  }

  /** The loop both helpers run: one pair per position of the longer list. */
  method PairUp(nepali: seq<string>, english: seq<string>) returns (paired: seq<Pair>)
    ensures |paired| == Max(|nepali|, |english|)
    ensures forall i :: 0 <= i < |paired| ==>
              paired[i].nepali == (if i < |nepali| then nepali[i] else "")
              && paired[i].english == (if i < |english| then english[i] else "")
    ensures |paired| == 0 <==> nepali == [] && english == []
  {
    var maxLength := Max(|nepali|, |english|);
    paired := [];
    for i := 0 to maxLength
      invariant |paired| == i
      invariant forall k :: 0 <= k < i ==> paired[k] == Pair(At(nepali, k), At(english, k))
    {
      paired := paired + [Pair(At(nepali, i), At(english, i))];
    }
  }

  /** `getPairedSenses(definition)`. */
  method PairedSenses(d: Definition) returns (paired: seq<Pair>)
    ensures |paired| == Max(|OrEmpty(d.senses.nepali)|, |OrEmpty(d.senses.english)|)
    ensures forall i :: 0 <= i < |paired| ==>
              paired[i] == Pair(At(OrEmpty(d.senses.nepali), i), At(OrEmpty(d.senses.english), i))
  {
    paired := PairUp(OrEmpty(d.senses.nepali), OrEmpty(d.senses.english));
  }

  /** `definition.examples?.nepali || []` and the same for English. */
  function ExampleTexts(d: Definition): (r: (seq<string>, seq<string>))
    ensures d.examples.None? ==> r == ([], [])
    ensures d.examples.Some? && d.examples.value.nepali.None? ==> r.0 == []
    ensures d.examples.Some? && d.examples.value.english.None? ==> r.1 == []
    ensures d.examples.Some? && d.examples.value.nepali.Some? ==> r.0 == d.examples.value.nepali.value
    ensures d.examples.Some? && d.examples.value.english.Some? ==> r.1 == d.examples.value.english.value
  {
    if d.examples.None? then ([], [])
    else (OrEmpty(d.examples.value.nepali), OrEmpty(d.examples.value.english))
  }

  /** `getPairedExamples(definition)`: the same zip over the examples; a missing
      `examples` object gives no pairs. */
  method PairedExamples(d: Definition) returns (paired: seq<Pair>)
    ensures |paired| == Max(|ExampleTexts(d).0|, |ExampleTexts(d).1|)
    ensures forall i :: 0 <= i < |paired| ==>
              paired[i] == Pair(At(ExampleTexts(d).0, i), At(ExampleTexts(d).1, i))
    ensures d.examples.None? ==> paired == []
  {
    var (nepali, english) := ExampleTexts(d);
    paired := PairUp(nepali, english);
  }

  /** The Meanings heading is rendered only when there is at least one pair, that
      is, when either sense list is non-empty. */
  method ShowsMeanings(d: Definition) returns (shown: bool)
    ensures shown <==> OrEmpty(d.senses.nepali) != [] || OrEmpty(d.senses.english) != []
  {
    var paired := PairedSenses(d);
    shown := |paired| > 0;
  }

  /** The Examples heading likewise. */
  method ShowsExamples(d: Definition) returns (shown: bool)
    ensures shown <==> ExampleTexts(d).0 != [] || ExampleTexts(d).1 != []
    ensures d.examples.None? ==> !shown
  {
    var paired := PairedExamples(d);
    shown := |paired| > 0;
  }
}
