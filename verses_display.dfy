/** The verse panel shown under the player: which verses of the current
    surah it lists for the selected audio option. Rendering is not modelled;
    the panel's result is the list of verses it would show, or `None` when it
    renders nothing. */
module VersesDisplay {
  import opened Strings
  import opened ClipParser
  import opened Surahs
  import opened VerseRanges

  /** `getVerse`'s data: the stored text of verse `(surah, verse)`. A missing
      pair reads as `null`. */
  type VerseTexts = map<(int, int), string>

  datatype Verse = Verse(number: int, text: string)

  /** `getVerse(surah, verse)`; `""` stands for both `null` and an empty text,
      which the panel treats alike. */
  function GetVerse(texts: VerseTexts, surah: int, verse: int): string {
    if (surah, verse) in texts then texts[(surah, verse)] else ""
  }

  /** `verseNumbers.map(n => ({number: n, text: getVerse(surah, n)}))
      .filter(v => v.text)`. */
  function WithText(numbers: seq<int>, surah: int, texts: VerseTexts): (r: seq<Verse>)
    ensures |r| <= |numbers|
  {
    if numbers == [] then []
    else
      var front := WithText(numbers[..|numbers| - 1], surah, texts);
      var n := numbers[|numbers| - 1];
      var text := GetVerse(texts, surah, n);
      if text == [] then front else front + [Verse(n, text)]
  }

  /** `VersesDisplay({ currentSurah, currentAudioOption })`: the verses listed,
      or `None` when the panel renders nothing. */
  function VisibleVerses(currentSurah: Option<Surah>, currentAudioOption: Option<AudioOption>,
                         texts: VerseTexts): Option<seq<Verse>>
  {
    if currentSurah.None? || currentAudioOption.None? || currentAudioOption.value.range == [] then None
    else
      var verses := WithText(RangeVerses(currentAudioOption.value.range), currentSurah.value.number, texts);
      if verses == [] then None else Some(verses)
  }

  // ---------------------------------------------------------------------------
  // What the panel lists
  // ---------------------------------------------------------------------------

  /** Every listed verse comes from `numbers` and carries its non-empty text. */
  lemma {:induction false} WithTextSound(numbers: seq<int>, surah: int, texts: VerseTexts)
    ensures forall k :: 0 <= k < |WithText(numbers, surah, texts)| ==>
              && WithText(numbers, surah, texts)[k].number in numbers
              && WithText(numbers, surah, texts)[k].text == GetVerse(texts, surah, WithText(numbers, surah, texts)[k].number)
              && WithText(numbers, surah, texts)[k].text != []
  {
    if numbers != [] {
      var front := numbers[..|numbers| - 1];
      var last := numbers[|numbers| - 1];
      WithTextSound(front, surah, texts);
      var f := WithText(front, surah, texts);
      var r := WithText(numbers, surah, texts);
      forall k | 0 <= k < |r|
        ensures r[k].number in numbers && r[k].text == GetVerse(texts, surah, r[k].number) && r[k].text != []
      {
        if k < |f| {
          assert r[k] == f[k];
          var i :| 0 <= i < |front| && front[i] == f[k].number;
          assert numbers[i] == front[i];
        } else {
          assert r[k] == Verse(last, GetVerse(texts, surah, last));
        }
      }
    }
  }

  /** Every number of `numbers` that has a text is listed with it. */
  lemma {:induction false} WithTextComplete(numbers: seq<int>, surah: int, texts: VerseTexts)
    ensures forall n :: n in numbers && GetVerse(texts, surah, n) != [] ==>
              Verse(n, GetVerse(texts, surah, n)) in WithText(numbers, surah, texts)
  {
    if numbers != [] {
      var front := numbers[..|numbers| - 1];
      var last := numbers[|numbers| - 1];
      WithTextComplete(front, surah, texts);
      var f := WithText(front, surah, texts);
      var r := WithText(numbers, surah, texts);
      forall n | n in numbers && GetVerse(texts, surah, n) != []
        ensures Verse(n, GetVerse(texts, surah, n)) in r
      {
        if n == last {
          assert r[|r| - 1] == Verse(n, GetVerse(texts, surah, n));
        } else {
          var i :| 0 <= i < |numbers| && numbers[i] == n;
          assert i < |front| && front[i] == n;
          var v := Verse(n, GetVerse(texts, surah, n));
          assert v in f;
          var k :| 0 <= k < |f| && f[k] == v;
          assert r[k] == v;
        }
      }
    }
  }

  /** Filtering keeps the order of an ascending list. */
  lemma {:induction false} WithTextOrdered(numbers: seq<int>, surah: int, texts: VerseTexts)
    requires Increasing(numbers)
    ensures forall i, j :: 0 <= i < j < |WithText(numbers, surah, texts)| ==>
              WithText(numbers, surah, texts)[i].number < WithText(numbers, surah, texts)[j].number
  {
    if numbers != [] {
      var front := numbers[..|numbers| - 1];
      var last := numbers[|numbers| - 1];
      assert Increasing(front);
      WithTextOrdered(front, surah, texts);
      WithTextSound(front, surah, texts);
      var f := WithText(front, surah, texts);
      forall k | 0 <= k < |f|
        ensures f[k].number < last
      {
        var i :| 0 <= i < |front| && front[i] == f[k].number;
        assert numbers[i] == front[i];
      }
    }
  }

  /** The panel renders nothing exactly when the surah, the option or its
      range is missing, or no number of the range has a text. */
  lemma VisibleVersesNoneIff(currentSurah: Option<Surah>, currentAudioOption: Option<AudioOption>,
                             texts: VerseTexts)
    ensures VisibleVerses(currentSurah, currentAudioOption, texts).None?
        <==> || currentSurah.None? || currentAudioOption.None? || currentAudioOption.value.range == []
             || forall n :: n in RangeVerses(currentAudioOption.value.range) ==>
                  GetVerse(texts, currentSurah.value.number, n) == []
  {
    if currentSurah.Some? && currentAudioOption.Some? && currentAudioOption.value.range != [] {
      var numbers := RangeVerses(currentAudioOption.value.range);
      var surah := currentSurah.value.number;
      WithTextSound(numbers, surah, texts);
      WithTextComplete(numbers, surah, texts);
      if WithText(numbers, surah, texts) != [] {
        var v := WithText(numbers, surah, texts)[0];
        assert v.number in numbers && GetVerse(texts, surah, v.number) != [];
      }
    }
  }

  /** When shown, the panel lists exactly the verses of the option's range that
      have a text in the current surah, each with that text, in ascending
      verse order. */
  lemma VisibleVersesContents(currentSurah: Option<Surah>, currentAudioOption: Option<AudioOption>,
                              texts: VerseTexts)
    requires VisibleVerses(currentSurah, currentAudioOption, texts).Some?
    ensures var r := VisibleVerses(currentSurah, currentAudioOption, texts).value;
            var range := currentAudioOption.value.range;
            var surah := currentSurah.value.number;
            && r != []
            && (forall k :: 0 <= k < |r| ==>
                  r[k].number in RangeVerses(range) && r[k].text == GetVerse(texts, surah, r[k].number)
                  && r[k].text != [])
            && (forall n :: n in RangeVerses(range) && GetVerse(texts, surah, n) != [] ==>
                  Verse(n, GetVerse(texts, surah, n)) in r)
            && (forall i, j :: 0 <= i < j < |r| ==> r[i].number < r[j].number)
  {
    var range := currentAudioOption.value.range;
    var surah := currentSurah.value.number;
    WithTextSound(RangeVerses(range), surah, texts);
    WithTextComplete(RangeVerses(range), surah, texts);
    RangeVersesShape(range);
    WithTextOrdered(RangeVerses(range), surah, texts);
  }
}
