/** The build script that regenerates the verse data: it collects, per surah,
    the verse numbers covered by the clip files on disk, takes their texts from
    the Quran.com API's answer and writes them out as a JavaScript module. The
    directory listing and the API answer are inputs here; see README.md for what
    stays outside the model. */
module FetchVerses {
  import opened Strings
  import opened ClipParser
  import opened VerseRanges

  // ---------------------------------------------------------------------------
  // Clip names and folder names
  // ---------------------------------------------------------------------------

  /** The script's own `parseRange(filename)`: the text after the underscore of
      a clip name, or `None`. */
  function ClipRange(filename: string): Option<string> {
    var parts := Split(StripMp3(filename), '_');
    if |parts| != 2 then None else Some(parts[1])
  }

  /** The script reads a clip name exactly as the player's parser does: it
      fails on the same names and yields the same range. */
  lemma ClipRangeAgreesWithParser(filename: string)
    ensures ClipRange(filename).None? <==> ParseClipFilename(filename).None?
    ensures ClipRange(filename).Some? ==> ClipRange(filename).value == ParseClipFilename(filename).value.range
  {
  }

  /** `getVerseNumbersFromRange(range)`: the same expansion as the panel's
      `parseRange`. */
  method GetVerseNumbersFromRange(range: string) returns (verses: seq<int>)
    ensures verses == RangeVerses(range)
  {
    verses := ParseRange(range);
  }

  /** `folder.match(/^(\d+)-/)` read with `parseInt`: the number a folder name
      starts with, when digits are directly followed by `-`. */
  function FolderNumber(name: string): Option<nat> {
    var d := LeadingDigits(name);
    if d != [] && |d| < |name| && name[|d|] == '-' then Some(DigitsValue(d)) else None
  }

  /** Folders named `<number>-<anything>` are numbered by that number; names
      that do not start with a digit are skipped. */
  lemma FolderNumberCases(n: nat, rest: string, other: string)
    requires other == [] || !IsDigit(other[0])
    ensures FolderNumber(DecimalString(n) + "-" + rest) == Some(n)
    ensures FolderNumber(other) == None
  {
    var name := DecimalString(n) + "-" + rest;
    assert name == DecimalString(n) + ("-" + rest);
    LeadingDigitsOfPrefix(DecimalString(n), "-" + rest);
    DecimalStringValue(n);
  }

  predicate IsMp3(file: string) {
    EndsWith(file, Mp3Extension)
  }

  /** `files.filter(file => file.endsWith('.mp3'))`. */
  function Mp3Files(files: seq<string>): (r: seq<string>)
    ensures forall f :: f in r <==> f in files && IsMp3(f)
  {
    if files == [] then []
    else
      var front := Mp3Files(files[..|files| - 1]);
      var last := files[|files| - 1];
      assert files == files[..|files| - 1] + [last];
      if IsMp3(last) then front + [last] else front
  }

  /** The verses one file contributes: its range expanded, or nothing when the
      name has no range or an empty one. */
  function FileVerses(file: string): seq<int> {
    match ClipRange(file)
    case None => []
    case Some(range) => if range == [] then [] else RangeVerses(range)
  }

  // ---------------------------------------------------------------------------
  // Reference: the verse numbers each surah needs
  // ---------------------------------------------------------------------------

  /** A folder of the clips directory with the names of the files in it. */
  datatype ClipFolder = ClipFolder(name: string, files: seq<string>)

  /** The union of the verses of some files. */
  function FilesVerses(files: seq<string>): set<int> {
    if files == [] then {}
    else FilesVerses(files[..|files| - 1]) + Elements(FileVerses(files[|files| - 1]))
  }

  /** What one folder adds: nothing unless it is numbered and holds `.mp3`
      files; then its number gets an entry, extended by its files' verses. */
  function AddFolder(sets: map<int, set<int>>, folder: ClipFolder): map<int, set<int>> {
    match FolderNumber(folder.name)
    case None => sets
    case Some(n) =>
      var files := Mp3Files(folder.files);
      if files == [] then sets
      else sets[n := (if n in sets then sets[n] else {}) + FilesVerses(files)]
  }

  /** The verse numbers needed per surah, folder by folder. */
  function VerseSets(folders: seq<ClipFolder>): map<int, set<int>> {
    if folders == [] then map[]
    else AddFolder(VerseSets(folders[..|folders| - 1]), folders[|folders| - 1])
  }

  lemma {:induction false} FilesVersesMembers(files: seq<string>)
    ensures forall v :: v in FilesVerses(files) <==> exists f :: f in files && v in FileVerses(f)
  {
    if files != [] {
      var front, last := files[..|files| - 1], files[|files| - 1];
      FilesVersesMembers(front);
      assert files == front + [last];
      forall v
        ensures v in FilesVerses(files) <==> exists f :: f in files && v in FileVerses(f)
      {
        if v in FilesVerses(files) {
          if v in FilesVerses(front) {
            var f :| f in front && v in FileVerses(f);
            assert f in files;
          } else {
            assert last in files && v in FileVerses(last);
          }
        }
        if exists f :: f in files && v in FileVerses(f) {
          var f :| f in files && v in FileVerses(f);
          if f != last {
            assert f in front;
          }
        }
      }
    }
  }

  /** The folder is numbered `n` and holds at least one `.mp3` file. */
  predicate Opens(folder: ClipFolder, n: int) {
    FolderNumber(folder.name) == Some(n) && Mp3Files(folder.files) != []
  }

  /** The folder is numbered `n` and one of its `.mp3` files covers verse `v`. */
  predicate Provides(folder: ClipFolder, n: int, v: int) {
    FolderNumber(folder.name) == Some(n) && v in FilesVerses(Mp3Files(folder.files))
  }

  /** One folder's step on the keys: a surah has an entry afterwards when it
      had one before or the folder opens it. */
  lemma AddFolderKeys(sets: map<int, set<int>>, folder: ClipFolder, n: int)
    ensures n in AddFolder(sets, folder) <==> n in sets || Opens(folder, n)
  {
  }

  lemma ProvidesOpens(folder: ClipFolder, n: int, v: int)
    ensures Provides(folder, n, v) ==> Opens(folder, n)
  {
    if Provides(folder, n, v) {
      assert Mp3Files(folder.files) != [];
    }
  }

  /** No element satisfies `p` when none of the earlier ones and not the last
      one does. */
  lemma NoneAppend<T>(xs: seq<T>, front: seq<T>, p: T -> bool)
    requires xs != [] && front == xs[..|xs| - 1]
    requires forall i :: 0 <= i < |front| ==> !p(front[i])
    requires !p(xs[|xs| - 1])
    ensures forall i :: 0 <= i < |xs| ==> !p(xs[i])
  {
    forall i | 0 <= i < |xs|
      ensures !p(xs[i])
    {
      if i < |front| {
        assert xs[i] == front[i];
      }
    }
  }

  /** No folder opens `n` when none of the earlier ones and not the last one
      does. */
  lemma NoOpenerAppend(folders: seq<ClipFolder>, front: seq<ClipFolder>, n: int)
    requires folders != [] && front == folders[..|folders| - 1]
    requires forall i :: 0 <= i < |front| ==> !Opens(front[i], n)
    requires !Opens(folders[|folders| - 1], n)
    ensures forall i :: 0 <= i < |folders| ==> !Opens(folders[i], n)
  {
    NoneAppend(folders, front, f => Opens(f, n));
  }

  /** No folder provides verse `v` of `n` when none of the earlier ones and
      not the last one does. */
  lemma NoProviderAppend(folders: seq<ClipFolder>, front: seq<ClipFolder>, n: int, v: int)
    requires folders != [] && front == folders[..|folders| - 1]
    requires forall i :: 0 <= i < |front| ==> !Provides(front[i], n, v)
    requires !Provides(folders[|folders| - 1], n, v)
    ensures forall i :: 0 <= i < |folders| ==> !Provides(folders[i], n, v)
  {
    NoneAppend(folders, front, f => Provides(f, n, v));
  }

  /** A surah gets an entry exactly when some folder carries its number and
      holds at least one `.mp3` file. */
  lemma {:induction false} VerseSetsKeys(folders: seq<ClipFolder>)
    ensures forall n :: n in VerseSets(folders) <==> exists i :: 0 <= i < |folders| && Opens(folders[i], n)
  {
    if folders != [] {
      var front, last := folders[..|folders| - 1], folders[|folders| - 1];
      VerseSetsKeys(front);
      forall n
        ensures n in VerseSets(folders) <==> exists i :: 0 <= i < |folders| && Opens(folders[i], n)
      {
        AddFolderKeys(VerseSets(front), last, n);
        if n in VerseSets(front) {
          var i :| 0 <= i < |front| && Opens(front[i], n);
          assert folders[i] == front[i];
        } else if Opens(last, n) {
          assert Opens(folders[|folders| - 1], n);
        } else {
          NoOpenerAppend(folders, front, n);
        }
      }
    }
  }

  /** A surah's verses are exactly those covered by the `.mp3` files of the
      folders carrying its number; with `VerseSetsKeys`, a surah whose files
      all have malformed names still gets an entry, with no verses. */
  lemma VerseSetsMembers(folders: seq<ClipFolder>)
    ensures forall n, v :: n in VerseSets(folders) ==>
              (v in VerseSets(folders)[n] <==> exists i :: 0 <= i < |folders| && Provides(folders[i], n, v))
  {
    forall n, v | n in VerseSets(folders)
      ensures v in VerseSets(folders)[n] <==> exists i :: 0 <= i < |folders| && Provides(folders[i], n, v)
    {
      VerseSetsMember(folders, n, v);
    }
  }

  lemma {:induction false} VerseSetsMember(folders: seq<ClipFolder>, n: int, v: int)
    requires n in VerseSets(folders)
    ensures v in VerseSets(folders)[n] <==> exists i :: 0 <= i < |folders| && Provides(folders[i], n, v)
  {
    var front, last := folders[..|folders| - 1], folders[|folders| - 1];
    var sets := VerseSets(folders);
    assert sets == AddFolder(VerseSets(front), last);
    AddFolderStep(VerseSets(front), last, n, v);
    if n in VerseSets(front) {
      VerseSetsMember(front, n, v);
      if v in VerseSets(front)[n] {
        var i :| 0 <= i < |front| && Provides(front[i], n, v);
        assert folders[i] == front[i];
      } else if Provides(last, n, v) {
        assert Provides(folders[|folders| - 1], n, v);
      } else {
        NoProviderAppend(folders, front, n, v);
      }
    } else {
      VerseSetsKeys(front);
      if Provides(last, n, v) {
        assert Provides(folders[|folders| - 1], n, v);
      } else {
        forall i | 0 <= i < |front|
          ensures !Provides(front[i], n, v)
        {
          ProvidesOpens(front[i], n, v);
        }
        NoProviderAppend(folders, front, n, v);
      }
    }
  }

  /** One folder's step: a verse is in the new entry when it was in the old one
      or the folder provides it. */
  lemma AddFolderStep(sets: map<int, set<int>>, folder: ClipFolder, n: int, v: int)
    requires n in AddFolder(sets, folder)
    ensures v in AddFolder(sets, folder)[n] <==> (n in sets && v in sets[n]) || Provides(folder, n, v)
    ensures Provides(folder, n, v) ==> Opens(folder, n)
  {
    if Provides(folder, n, v) {
      assert Mp3Files(folder.files) != [];
    }
  }

  // ---------------------------------------------------------------------------
  // extractVerseRanges
  // ---------------------------------------------------------------------------

  /** `set.add(v)` on a JavaScript `Set`, which keeps insertion order: the set
      as a list of distinct numbers. */
  function SetAdd(s: seq<int>, v: int): (r: seq<int>)
    requires Distinct(s)
    ensures Distinct(r) && Elements(r) == Elements(s) + {v}
  {
    if v in s then s
    else
      assert forall x :: x in s + [v] <==> x in s || x == v;
      s + [v]
  }

  /** `verseNumbers.forEach(v => set.add(v))`. */
  method AddVerses(s: seq<int>, verseNumbers: seq<int>) returns (r: seq<int>)
    requires Distinct(s)
    ensures Distinct(r) && Elements(r) == Elements(s) + Elements(verseNumbers)
  {
    r := s;
    for k := 0 to |verseNumbers|
      invariant Distinct(r) && Elements(r) == Elements(s) + Elements(verseNumbers[..k])
    {
      assert verseNumbers[..k + 1] == verseNumbers[..k] + [verseNumbers[k]];
      r := SetAdd(r, verseNumbers[k]);
    }
    assert verseNumbers[..|verseNumbers|] == verseNumbers;
  }

  /** The files loop of one folder: every verse of every file's range is added
      to the folder's set. */
  method AddFiles(s: seq<int>, files: seq<string>) returns (r: seq<int>)
    requires Distinct(s)
    ensures Distinct(r) && Elements(r) == Elements(s) + FilesVerses(files)
  {
    r := s;
    for j := 0 to |files|
      invariant Distinct(r) && Elements(r) == Elements(s) + FilesVerses(files[..j])
    {
      assert files[..j + 1][..j] == files[..j];
      var range := ClipRange(files[j]);
      if range.Some? && range.value != [] {
        var verseNumbers := GetVerseNumbersFromRange(range.value);
        r := AddVerses(r, verseNumbers);
      }
    }
    assert files[..|files|] == files;
  }

  /** Inserting into an ascending list of distinct numbers. */
  function Insert(sorted: seq<int>, x: int): (r: seq<int>)
    requires Increasing(sorted) && x !in sorted
    ensures Increasing(r) && Elements(r) == Elements(sorted) + {x} && |r| == |sorted| + 1
  {
    if sorted == [] then [x]
    else if x < sorted[0] then
      assert forall y :: y in [x] + sorted <==> y == x || y in sorted;
      [x] + sorted
    else
      var rest := Insert(sorted[1..], x);
      assert forall y :: y in sorted <==> y == sorted[0] || y in sorted[1..];
      assert forall y :: y in [sorted[0]] + rest <==> y == sorted[0] || y in rest;
      assert forall k :: 0 <= k < |rest| ==> sorted[0] < rest[k] by {
        forall k | 0 <= k < |rest|
          ensures sorted[0] < rest[k]
        {
          assert rest[k] in Elements(rest);
          if rest[k] != x {
            var i :| 0 <= i < |sorted[1..]| && sorted[1..][i] == rest[k];
            assert sorted[i + 1] == rest[k];
          }
        }
      }
      [sorted[0]] + rest
  }

  /** `Array.from(set).sort((a, b) => a - b)`: the set's numbers, ascending. */
  method SortNumbers(a: seq<int>) returns (r: seq<int>)
    requires Distinct(a)
    ensures Increasing(r) && Elements(r) == Elements(a) && |r| == |a|
  {
    r := [];
    for i := 0 to |a|
      invariant Increasing(r) && Elements(r) == Elements(a[..i]) && |r| == i
    {
      assert a[..i + 1] == a[..i] + [a[i]];
      assert a[i] !in Elements(a[..i]);
      assert forall y :: y in r ==> y in Elements(r);
      r := Insert(r, a[i]);
    }
    assert a[..|a|] == a;
  }

  /** The script's `surahVersesMap` as built so far: `keys` lists its keys, each
      once and in no promised order, and each surah's `Set` holds the verses of `sets`. */
  predicate Collected(verseSets: map<int, seq<int>>, keys: seq<int>, sets: map<int, set<int>>) {
    && Distinct(keys) && Elements(keys) == verseSets.Keys
    && verseSets.Keys == sets.Keys
    && forall n :: n in verseSets ==> Distinct(verseSets[n]) && Elements(verseSets[n]) == sets[n]
  }

  /** One folder of the `surahFolders.forEach` loop: a numbered folder with
      `.mp3` files gets a `Set` if it has none and its files' verses added. */
  method CollectFolder(verseSets: map<int, seq<int>>, keys: seq<int>, folder: ClipFolder,
                       ghost sets: map<int, set<int>>)
    returns (verseSets': map<int, seq<int>>, keys': seq<int>)
    requires Collected(verseSets, keys, sets)
    ensures Collected(verseSets', keys', AddFolder(sets, folder))
  {
    verseSets', keys' := verseSets, keys;
    var number := FolderNumber(folder.name);
    if number.Some? {
      var files := Mp3Files(folder.files);
      if files != [] {
        var n := number.value;
        ghost var sets' := if n in sets then sets else sets[n := {}];
        if n !in verseSets' {
          CollectedOpen(verseSets', keys', sets, n);
          verseSets' := verseSets'[n := []];
          keys' := keys' + [n];
        }
        var added := AddFiles(verseSets'[n], files);
        CollectedUpdate(verseSets', keys', sets', n, added, FilesVerses(files));
        verseSets' := verseSets'[n := added];
        AddFolderOpened(sets, folder, n);
        OpenThenAdd(sets, n, FilesVerses(files));
      }
    }
  }

  /** A folder numbered `n` with `.mp3` files adds its files' verses to `n`. */
  lemma AddFolderOpened(sets: map<int, set<int>>, folder: ClipFolder, n: int)
    requires FolderNumber(folder.name) == Some(n) && Mp3Files(folder.files) != []
    ensures AddFolder(sets, folder)
         == sets[n := (if n in sets then sets[n] else {}) + FilesVerses(Mp3Files(folder.files))]
  {
  }

  /** Opening an empty entry for `n` when it has none, then adding `verses`,
      is adding `verses` to what `n` had. */
  lemma OpenThenAdd(sets: map<int, set<int>>, n: int, verses: set<int>)
    ensures var withEntry := if n in sets then sets else sets[n := {}];
            withEntry[n := withEntry[n] + verses] == sets[n := (if n in sets then sets[n] else {}) + verses]
  {
  }

  /** Opening an entry for a new surah: an empty `Set` and a new key. */
  lemma CollectedOpen(verseSets: map<int, seq<int>>, keys: seq<int>, sets: map<int, set<int>>, n: int)
    requires Collected(verseSets, keys, sets) && n !in verseSets
    ensures Collected(verseSets[n := []], keys + [n], sets[n := {}])
  {
    assert Elements(keys + [n]) == Elements(keys) + {n};
  }

  /** Adding verses to an existing entry. */
  lemma CollectedUpdate(verseSets: map<int, seq<int>>, keys: seq<int>, sets: map<int, set<int>>,
                        n: int, added: seq<int>, verses: set<int>)
    requires Collected(verseSets, keys, sets) && n in verseSets
    requires Distinct(added) && Elements(added) == Elements(verseSets[n]) + verses
    ensures Collected(verseSets[n := added], keys, sets[n := sets[n] + verses])
  {
  }

  /** `extractVerseRanges()` over the listed clip folders: for each surah with
      an entry, its needed verse numbers ascending and without repetition. The
      second result lists the object's keys, `Object.keys(result)`, each
      once; its order is not promised (the script sorts it before use). */
  method ExtractVerseRanges(folders: seq<ClipFolder>) returns (result: map<int, seq<int>>, keys: seq<int>)
    ensures result.Keys == VerseSets(folders).Keys
    ensures forall n :: n in result ==> Increasing(result[n]) && Elements(result[n]) == VerseSets(folders)[n]
    ensures Distinct(keys) && Elements(keys) == result.Keys
  {
    var verseSets: map<int, seq<int>> := map[];
    keys := [];
    for i := 0 to |folders|
      invariant Collected(verseSets, keys, VerseSets(folders[..i]))
    {
      assert folders[..i + 1][..i] == folders[..i];
      verseSets, keys := CollectFolder(verseSets, keys, folders[i], VerseSets(folders[..i]));
    }
    assert folders[..|folders|] == folders;
    result := map[];
    for k := 0 to |keys|
      invariant result.Keys == Elements(keys[..k])
      invariant forall n :: n in result ==> Increasing(result[n]) && Elements(result[n]) == VerseSets(folders)[n]
    {
      assert keys[..k + 1] == keys[..k] + [keys[k]];
      var sorted := SortNumbers(verseSets[keys[k]]);
      result := result[keys[k] := sorted];
    }
    assert keys[..|keys|] == keys;
  }

  // ---------------------------------------------------------------------------
  // fetchVersesForChapter / fetchVersesForSurah
  // ---------------------------------------------------------------------------

  /** One element of the API's `verses` array; a missing or `null` field reads
      as `""`, which the script treats alike. */
  datatype ApiVerse = ApiVerse(verseKey: string, text: string)

  /** `parseInt(verse_key.split(':')[1], 10)`; `None` for NaN, which includes a
      key without `:`. */
  function VerseKeyNumber(verseKey: string): Option<int> {
    var parts := Split(verseKey, ':');
    if |parts| < 2 then None else ParseInt(parts[1])
  }

  /** The API element sets the text of verse `n`: both fields are present and
      the key's verse part is a number above 0. */
  predicate Names(verse: ApiVerse, n: int) {
    verse.verseKey != [] && verse.text != [] && VerseKeyNumber(verse.verseKey) == Some(n) && n > 0
  }

  /** The map the chapter's verses build, element by element. */
  function ChapterMap(verses: seq<ApiVerse>): map<int, string> {
    if verses == [] then map[]
    else
      var m := ChapterMap(verses[..|verses| - 1]);
      var last := verses[|verses| - 1];
      match VerseKeyNumber(last.verseKey)
      case Some(n) => if Names(last, n) then m[n := last.text] else m
      case None => m
  }

  /** `fetchVersesForChapter` on the API's answer. */
  method FetchVersesForChapter(verses: seq<ApiVerse>) returns (versesMap: map<int, string>)
    ensures versesMap == ChapterMap(verses)
  {
    versesMap := map[];
    for i := 0 to |verses|
      invariant versesMap == ChapterMap(verses[..i])
    {
      assert verses[..i + 1][..i] == verses[..i];
      var verse := verses[i];
      if verse.verseKey != [] && verse.text != [] {
        var verseNumber := VerseKeyNumber(verse.verseKey);
        if verseNumber.Some? && verseNumber.value > 0 {
          versesMap := versesMap[verseNumber.value := verse.text];
        }
      }
    }
    assert verses[..|verses|] == verses;
  }

  /** The last element either sets verse `n` or leaves it as the earlier
      elements made it. */
  lemma ChapterMapLast(verses: seq<ApiVerse>, n: int)
    requires verses != []
    ensures var front, last := verses[..|verses| - 1], verses[|verses| - 1];
            && (n in ChapterMap(verses) <==> n in ChapterMap(front) || Names(last, n))
            && (Names(last, n) ==> ChapterMap(verses)[n] == last.text)
            && (!Names(last, n) && n in ChapterMap(front) ==> ChapterMap(verses)[n] == ChapterMap(front)[n])
  {
  }

  /** No element after position `i` names `n` when none of the earlier
      elements after `i` does and the last one does not. */
  lemma NoneNamedAfter(verses: seq<ApiVerse>, front: seq<ApiVerse>, i: int, n: int)
    requires verses != [] && front == verses[..|verses| - 1] && -1 <= i < |front|
    requires forall j :: i < j < |front| ==> !Names(front[j], n)
    requires !Names(verses[|verses| - 1], n)
    ensures forall j :: i < j < |verses| ==> !Names(verses[j], n)
  {
    forall j | i < j < |verses|
      ensures !Names(verses[j], n)
    {
      if j < |front| {
        assert verses[j] == front[j];
      }
    }
  }

  /** The chapter map holds verse `n` exactly when some element names it. */
  lemma {:induction false} ChapterMapKeys(verses: seq<ApiVerse>, n: int)
    ensures n in ChapterMap(verses) <==> exists i :: 0 <= i < |verses| && Names(verses[i], n)
  {
    if verses != [] {
      var front, last := verses[..|verses| - 1], verses[|verses| - 1];
      ChapterMapKeys(front, n);
      ChapterMapLast(verses, n);
      if Names(last, n) {
        assert Names(verses[|verses| - 1], n);
      } else if n in ChapterMap(front) {
        var i :| 0 <= i < |front| && Names(front[i], n);
        assert verses[i] == front[i];
      } else {
        NoneNamedAfter(verses, front, -1, n);
      }
    }
  }

  /** The text stored for verse `n` is that of the last element naming it,
      and it is never empty. */
  lemma {:induction false} ChapterMapValue(verses: seq<ApiVerse>, n: int)
    requires n in ChapterMap(verses)
    ensures n > 0 && ChapterMap(verses)[n] != []
    ensures exists i :: && 0 <= i < |verses| && Names(verses[i], n)
                        && ChapterMap(verses)[n] == verses[i].text
                        && forall j :: i < j < |verses| ==> !Names(verses[j], n)
  {
    var front, last := verses[..|verses| - 1], verses[|verses| - 1];
    ChapterMapLast(verses, n);
    if Names(last, n) {
      assert Names(verses[|verses| - 1], n);
    } else {
      ChapterMapValue(front, n);
      var i :| && 0 <= i < |front| && Names(front[i], n)
               && ChapterMap(front)[n] == front[i].text
               && forall j :: i < j < |front| ==> !Names(front[j], n);
      assert verses[i] == front[i];
      NoneNamedAfter(verses, front, i, n);
    }
  }

  /** A verse key `"<chapter>:<verse>"` names its verse. */
  lemma VerseKeyRoundTrip(chapter: nat, verse: nat)
    ensures VerseKeyNumber(DecimalString(chapter) + ":" + DecimalString(verse)) == Some(verse)
  {
    var a, b := DecimalString(chapter), DecimalString(verse);
    assert ':' !in a && ':' !in b;
    assert a + ":" + b == a + [':'] + b;
    SplitTwo(a, b, ':');
    ParseIntDecimal(verse, []);
    assert b + [] == b;
  }

  /** `allVerses[verseNum]` if truthy, else the `""` placeholder. */
  function Pick(allVerses: map<int, string>, v: int): string {
    if v in allVerses && allVerses[v] != [] then allVerses[v] else []
  }

  /** A requested verse gets the API's text when an element names it, and the
      empty placeholder otherwise. */
  lemma PickFromApi(apiVerses: seq<ApiVerse>, v: int)
    ensures Pick(ChapterMap(apiVerses), v) == [] <==> forall i :: 0 <= i < |apiVerses| ==> !Names(apiVerses[i], v)
    ensures Pick(ChapterMap(apiVerses), v) != [] ==> Pick(ChapterMap(apiVerses), v) == ChapterMap(apiVerses)[v]
  {
    ChapterMapKeys(apiVerses, v);
    if v in ChapterMap(apiVerses) {
      ChapterMapValue(apiVerses, v);
    }
  }

  /** `fetchVersesForSurah(surahNumber, verseNumbers)` with the chapter's API
      answer as input: every requested number becomes a key, with its text or
      `""`. The second result lists the keys of the object built, each once,
      in no promised order. */
  method FetchVersesForSurah(apiVerses: seq<ApiVerse>, verseNumbers: seq<int>)
    returns (verses: map<int, string>, keys: seq<int>)
    ensures verses.Keys == Elements(verseNumbers)
    ensures forall v :: v in verses ==> verses[v] == Pick(ChapterMap(apiVerses), v)
    ensures Distinct(keys) && Elements(keys) == verses.Keys
  {
    var allVerses := FetchVersesForChapter(apiVerses);
    verses := map[];
    keys := [];
    for k := 0 to |verseNumbers|
      invariant verses.Keys == Elements(verseNumbers[..k])
      invariant forall v :: v in verses ==> verses[v] == Pick(allVerses, v)
      invariant Distinct(keys) && Elements(keys) == verses.Keys
    {
      assert verseNumbers[..k + 1] == verseNumbers[..k] + [verseNumbers[k]];
      var verseNum := verseNumbers[k];
      if verseNum !in verses {
        keys := keys + [verseNum];
      }
      if verseNum in allVerses && allVerses[verseNum] != [] {
        verses := verses[verseNum := allVerses[verseNum]];
      } else {
        verses := verses[verseNum := ""];
      }
    }
    assert verseNumbers[..|verseNumbers|] == verseNumbers;
  }

  // ---------------------------------------------------------------------------
  // Escaping and the generated text
  // ---------------------------------------------------------------------------

  /** `text.replace(/"/g, '\\"')`: a backslash before every double quote. */
  function Escape(text: string): (r: string)
    ensures |r| == |text| + Count(text, '"')
  {
    if text == [] then []
    else (if text[0] == '"' then "\\\"" else [text[0]]) + Escape(text[1..])
  }

  /** Reading `\"` back as `"`. */
  function Unescape(s: string): string {
    if s == [] then []
    else if |s| >= 2 && s[0] == '\\' && s[1] == '"' then "\"" + Unescape(s[2..])
    else [s[0]] + Unescape(s[1..])
  }

  /** Escaping only inserts the backslashes: reading them back gives the
      original text, so nothing else changes. */
  lemma {:induction false} EscapeRoundTrip(text: string)
    ensures Unescape(Escape(text)) == text
    ensures Escape(text) != [] ==> Escape(text)[0] != '"'
  {
    if text != [] {
      EscapeRoundTrip(text[1..]);
      var rest := Escape(text[1..]);
      if text[0] == '"' {
        assert Escape(text) == "\\\"" + rest;
        assert Escape(text)[2..] == rest;
      } else {
        assert Escape(text) == [text[0]] + rest;
        assert Escape(text)[1..] == rest;
        if text[0] == '\\' {
          assert !(|Escape(text)| >= 2 && Escape(text)[1] == '"');
        }
      }
      assert text == [text[0]] + text[1..];
    }
  }

  /** Every double quote of the escaped text is preceded by a backslash. */
  lemma {:induction false} EscapedQuotesArePreceded(text: string)
    ensures forall i :: 0 <= i < |Escape(text)| && Escape(text)[i] == '"' ==> i > 0 && Escape(text)[i - 1] == '\\'
  {
    if text != [] {
      EscapedQuotesArePreceded(text[1..]);
      EscapeRoundTrip(text[1..]);
      var head: string := if text[0] == '"' then "\\\"" else [text[0]];
      var rest := Escape(text[1..]);
      assert Escape(text) == head + rest;
      forall i | 0 <= i < |Escape(text)| && Escape(text)[i] == '"'
        ensures i > 0 && Escape(text)[i - 1] == '\\'
      {
        if i >= |head| {
          var j := i - |head|;
          assert rest[j] == '"';
          if j == 0 {
            assert false;
          }
          assert Escape(text)[i - 1] == rest[j - 1];
        }
      }
    }
  }

  datatype VerseLine = VerseLine(number: int, text: string)

  /** One surah's part of the generated module: its number, the verse numbers
      listed in its comment line and one line per verse. */
  datatype SurahBlock = SurahBlock(surah: int, needed: seq<int>, lines: seq<VerseLine>)

  /** `numbers.join(', ')`. */
  function JoinNumbers(numbers: seq<int>): string {
    if numbers == [] then []
    else if |numbers| == 1 then NumberString(numbers[0])
    else NumberString(numbers[0]) + ", " + JoinNumbers(numbers[1..])
  }

  function LineText(line: VerseLine): string {
    "    " + NumberString(line.number) + ": \"" + line.text + "\",\n"
  }

  function LinesText(lines: seq<VerseLine>): string {
    if lines == [] then [] else LinesText(lines[..|lines| - 1]) + LineText(lines[|lines| - 1])
  }

  function BlockHeader(surah: int, needed: seq<int>): string {
    "  " + NumberString(surah) + ": {\n" + "    // Verses needed: " + JoinNumbers(needed) + "\n"
  }

  const BlockFooter := "  },\n"

  function BlockText(block: SurahBlock): string {
    BlockHeader(block.surah, block.needed) + LinesText(block.lines) + BlockFooter
  }

  function BlocksText(blocks: seq<SurahBlock>): string {
    if blocks == [] then [] else BlocksText(blocks[..|blocks| - 1]) + BlockText(blocks[|blocks| - 1])
  }

  /** The block renders the verses `verses` has: their numbers ascending, and
      for each the escaped text. */
  predicate Renders(block: SurahBlock, verses: map<int, string>) {
    && Increasing(block.needed)
    && Elements(block.needed) == verses.Keys
    && |block.lines| == |block.needed|
    && forall k :: 0 <= k < |block.lines| ==>
         block.needed[k] in verses && block.lines[k] == VerseLine(block.needed[k], Escape(verses[block.needed[k]]))
  }

  /** The `verseNumbers.forEach` of one surah in `rebuildVerses`: one escaped
      line per verse number, appended in order. */
  method RenderLines(verses: map<int, string>, verseNumbers: seq<int>)
    returns (lines: seq<VerseLine>, text: string)
    requires forall i :: 0 <= i < |verseNumbers| ==> verseNumbers[i] in verses
    ensures |lines| == |verseNumbers|
    ensures forall i :: 0 <= i < |lines| ==> lines[i] == VerseLine(verseNumbers[i], Escape(verses[verseNumbers[i]]))
    ensures text == LinesText(lines)
  {
    lines := [];
    text := [];
    for k := 0 to |verseNumbers|
      invariant |lines| == k
      invariant forall i :: 0 <= i < k ==> lines[i] == VerseLine(verseNumbers[i], Escape(verses[verseNumbers[i]]))
      invariant text == LinesText(lines)
    {
      var verseNum := verseNumbers[k];
      var escapedText := Escape(verses[verseNum]);
      var line := VerseLine(verseNum, escapedText);
      assert (lines + [line])[..|lines|] == lines;
      lines := lines + [line];
      text := text + LineText(line);
    }
  }

  /** One surah's block of `rebuildVerses`: its verse numbers sorted, the
      header, the verse lines and the closing line. */
  method RenderSurah(surahNum: int, verses: map<int, string>, keys: seq<int>)
    returns (block: SurahBlock, text: string)
    requires Distinct(keys) && Elements(keys) == verses.Keys
    ensures block.surah == surahNum && Renders(block, verses)
    ensures text == BlockText(block)
  {
    var verseNumbers := SortNumbers(keys);
    assert forall i :: 0 <= i < |verseNumbers| ==> verseNumbers[i] in Elements(verseNumbers);
    text := BlockHeader(surahNum, verseNumbers);
    var lines, linesText := RenderLines(verses, verseNumbers);
    text := text + linesText;
    text := text + BlockFooter;
    block := SurahBlock(surahNum, verseNumbers, lines);
    assert forall k :: 0 <= k < |lines| ==> verseNumbers[k] in Elements(verseNumbers);
  }

  // ---------------------------------------------------------------------------
  // rebuildVerses
  // ---------------------------------------------------------------------------

  /** The API's answer for chapter `n`; a failed request yields no verses. */
  function ApiFor(api: map<int, seq<ApiVerse>>, n: int): seq<ApiVerse> {
    if n in api then api[n] else []
  }

  /** The surahs the generated module lists: those whose clips name at least
      one verse. */
  function NeededSurahs(folders: seq<ClipFolder>): set<int> {
    set n | n in VerseSets(folders) && VerseSets(folders)[n] != {}
  }

  /** The texts the generated module holds for surah `n`: every needed verse,
      with the API's text or the `""` placeholder. */
  function SurahVerses(folders: seq<ClipFolder>, api: map<int, seq<ApiVerse>>, n: int): map<int, string>
    requires n in VerseSets(folders)
  {
    map v | v in VerseSets(folders)[n] :: Pick(ChapterMap(ApiFor(api, n)), v)
  }

  /** A surah's fetched verses: exactly `wanted`, each with its picked text. */
  predicate Fetched(verses: map<int, string>, apiVerses: seq<ApiVerse>, wanted: set<int>) {
    && verses.Keys == wanted
    && forall v :: v in verses ==> verses[v] == Pick(ChapterMap(apiVerses), v)
  }

  function BlockSurahs(blocks: seq<SurahBlock>): seq<int> {
    seq(|blocks|, i requires 0 <= i < |blocks| => blocks[i].surah)
  }

  /** `allKeys[n]` lists the keys of `allVerses[n]`, each once: the
      `Object.keys` of every fetched surah. */
  predicate KeysListed(allVerses: map<int, map<int, string>>, allKeys: map<int, seq<int>>) {
    && allVerses.Keys == allKeys.Keys
    && forall n :: n in allKeys ==> Distinct(allKeys[n]) && Elements(allKeys[n]) == allVerses[n].Keys
  }

  /** The fetch loop of `rebuildVerses`: each surah of `surahNumbers` with a
      non-empty range list is fetched; the others are skipped. */
  method FetchAll(verseRanges: map<int, seq<int>>, surahNumbers: seq<int>, api: map<int, seq<ApiVerse>>)
    returns (allVerses: map<int, map<int, string>>, allKeys: map<int, seq<int>>)
    requires forall i :: 0 <= i < |surahNumbers| ==> surahNumbers[i] in verseRanges
    ensures KeysListed(allVerses, allKeys)
    ensures forall n :: n in allVerses <==> n in Elements(surahNumbers) && n in verseRanges && verseRanges[n] != []
    ensures forall n :: n in allVerses ==>
              n in verseRanges && Fetched(allVerses[n], ApiFor(api, n), Elements(verseRanges[n]))
  {
    allVerses := map[];
    allKeys := map[];
    for k := 0 to |surahNumbers|
      invariant KeysListed(allVerses, allKeys)
      invariant forall n :: n in allVerses <==> n in Elements(surahNumbers[..k]) && n in verseRanges && verseRanges[n] != []
      invariant forall n :: n in allVerses ==>
                  n in verseRanges && Fetched(allVerses[n], ApiFor(api, n), Elements(verseRanges[n]))
    {
      assert surahNumbers[..k + 1] == surahNumbers[..k] + [surahNumbers[k]];
      var surahNum := surahNumbers[k];
      var verseNumbers := verseRanges[surahNum];
      if |verseNumbers| == 0 {
        continue;
      }
      var verses, keys := FetchVersesForSurah(ApiFor(api, surahNum), verseNumbers);
      allVerses := allVerses[surahNum := verses];
      allKeys := allKeys[surahNum := keys];
    }
    assert surahNumbers[..|surahNumbers|] == surahNumbers;
  }

  /** The surahs of `surahNumbers` with a non-empty fetched map. */
  function Shown(surahNumbers: seq<int>, allVerses: map<int, map<int, string>>): set<int> {
    set n | n in Elements(surahNumbers) && n in allVerses && allVerses[n] != map[]
  }

  lemma ShownStep(surahNumbers: seq<int>, n: int, allVerses: map<int, map<int, string>>)
    ensures Shown(surahNumbers + [n], allVerses) ==
              if n in allVerses && allVerses[n] != map[] then Shown(surahNumbers, allVerses) + {n}
              else Shown(surahNumbers, allVerses)
  {
    assert Elements(surahNumbers + [n]) == Elements(surahNumbers) + {n};
  }

  lemma ElementsAppend(s: seq<int>, x: int)
    ensures Elements(s + [x]) == Elements(s) + {x}
  {
  }

  /** Every block renders the fetched verses of its surah. */
  predicate BlocksRender(blocks: seq<SurahBlock>, allVerses: map<int, map<int, string>>) {
    forall i :: 0 <= i < |blocks| ==>
      blocks[i].surah in allVerses && Renders(blocks[i], allVerses[blocks[i].surah])
  }

  lemma BlocksRenderStep(blocks: seq<SurahBlock>, block: SurahBlock, allVerses: map<int, map<int, string>>)
    requires BlocksRender(blocks, allVerses)
    requires block.surah in allVerses && Renders(block, allVerses[block.surah])
    ensures BlocksRender(blocks + [block], allVerses)
  {
    forall i | 0 <= i < |blocks| + 1
      ensures (blocks + [block])[i].surah in allVerses
              && Renders((blocks + [block])[i], allVerses[(blocks + [block])[i].surah])
    {
      if i < |blocks| {
        assert (blocks + [block])[i] == blocks[i];
      }
    }
  }

  lemma BlockSurahsAppend(blocks: seq<SurahBlock>, block: SurahBlock)
    ensures BlockSurahs(blocks + [block]) == BlockSurahs(blocks) + [block.surah]
  {
    forall i | 0 <= i < |blocks| + 1
      ensures BlockSurahs(blocks + [block])[i] == (BlockSurahs(blocks) + [block.surah])[i]
    {
      if i < |blocks| {
        assert (blocks + [block])[i] == blocks[i];
      }
    }
  }

  lemma BlocksTextAppend(blocks: seq<SurahBlock>, block: SurahBlock)
    ensures BlocksText(blocks + [block]) == BlocksText(blocks) + BlockText(block)
  {
    assert (blocks + [block])[..|blocks|] == blocks;
  }

  /** In an ascending list, everything before position `k` is below `s[k]`. */
  lemma PrefixBelow(s: seq<int>, k: int)
    requires Increasing(s) && 0 <= k < |s|
    ensures forall y :: y in Elements(s[..k]) ==> y < s[k]
  {
    forall y | y in Elements(s[..k])
      ensures y < s[k]
    {
      var i :| 0 <= i < k && s[..k][i] == y;
      assert s[i] == y;
    }
  }

  lemma IncreasingAppend(s: seq<int>, x: int)
    requires Increasing(s)
    requires forall y :: y in Elements(s) ==> y < x
    ensures Increasing(s + [x])
  {
    forall i | 0 <= i < |s|
      ensures s[i] < x
    {
      assert s[i] in Elements(s);
    }
  }

  /** The blocks and text rendered for the surahs of `done`, in order. */
  predicate RenderedUpTo(blocks: seq<SurahBlock>, content: string, done: seq<int>,
                         allVerses: map<int, map<int, string>>)
  {
    && Increasing(BlockSurahs(blocks))
    && Elements(BlockSurahs(blocks)) == Shown(done, allVerses)
    && BlocksRender(blocks, allVerses)
    && content == BlocksText(blocks)
  }

  /** One iteration of the rendering loop: the block of `surahNum`, if it was
      fetched with at least one verse, is appended. */
  method RenderNext(blocks: seq<SurahBlock>, content: string, done: seq<int>, surahNum: int,
                    allVerses: map<int, map<int, string>>, allKeys: map<int, seq<int>>)
    returns (blocks': seq<SurahBlock>, content': string)
    requires KeysListed(allVerses, allKeys)
    requires forall y :: y in Elements(done) ==> y < surahNum
    requires RenderedUpTo(blocks, content, done, allVerses)
    ensures RenderedUpTo(blocks', content', done + [surahNum], allVerses)
  {
    ShownStep(done, surahNum, allVerses);
    if surahNum !in allVerses || |allKeys[surahNum]| == 0 {
      ElementsEmptyIff(if surahNum in allKeys then allKeys[surahNum] else []);
      return blocks, content;
    }
    ElementsEmptyIff(allKeys[surahNum]);
    var block, text := RenderSurah(surahNum, allVerses[surahNum], allKeys[surahNum]);
    IncreasingAppend(BlockSurahs(blocks), surahNum);
    BlocksTextAppend(blocks, block);
    BlockSurahsAppend(blocks, block);
    ElementsAppend(BlockSurahs(blocks), surahNum);
    BlocksRenderStep(blocks, block, allVerses);
    blocks' := blocks + [block];
    content' := content + text;
  }

  /** The rendering loop of `rebuildVerses`: one block per surah of
      `surahNumbers` that was fetched with at least one verse, in that order. */
  method RenderAll(surahNumbers: seq<int>, allVerses: map<int, map<int, string>>, allKeys: map<int, seq<int>>)
    returns (blocks: seq<SurahBlock>, content: string)
    requires Increasing(surahNumbers)
    requires KeysListed(allVerses, allKeys)
    ensures RenderedUpTo(blocks, content, surahNumbers, allVerses)
  {
    blocks := [];
    content := [];
    for k := 0 to |surahNumbers|
      invariant RenderedUpTo(blocks, content, surahNumbers[..k], allVerses)
    {
      assert surahNumbers[..k + 1] == surahNumbers[..k] + [surahNumbers[k]];
      PrefixBelow(surahNumbers, k);
      blocks, content := RenderNext(blocks, content, surahNumbers[..k], surahNumbers[k], allVerses, allKeys);
    }
    assert surahNumbers[..|surahNumbers|] == surahNumbers;
  }

  /** `rebuildVerses()` over the clip folders and the API's answers: the
      generated module lists, in ascending surah order, exactly the surahs whose
      clips name a verse, and each block holds that surah's needed verses in
      ascending order with their escaped API texts (or `""`). */
  method RebuildVerses(folders: seq<ClipFolder>, api: map<int, seq<ApiVerse>>)
    returns (blocks: seq<SurahBlock>, content: string)
    ensures Increasing(BlockSurahs(blocks))
    ensures Elements(BlockSurahs(blocks)) == NeededSurahs(folders)
    ensures forall i :: 0 <= i < |blocks| ==>
              blocks[i].surah in VerseSets(folders)
              && Renders(blocks[i], SurahVerses(folders, api, blocks[i].surah))
    ensures content == BlocksText(blocks)
  {
    var verseRanges, rangeKeys := ExtractVerseRanges(folders);
    var surahNumbers := SortNumbers(rangeKeys);
    assert forall i :: 0 <= i < |surahNumbers| ==> surahNumbers[i] in Elements(surahNumbers);
    var allVerses, allKeys := FetchAll(verseRanges, surahNumbers, api);
    blocks, content := RenderAll(surahNumbers, allVerses, allKeys);
    forall n | n in allVerses
      ensures n in VerseSets(folders) && allVerses[n] == SurahVerses(folders, api, n)
      ensures allVerses[n] != map[] && VerseSets(folders)[n] != {}
    {
      ElementsEmptyIff(verseRanges[n]);
      FetchedIsSurahVerses(allVerses[n], folders, api, n);
    }
    forall n
      ensures n in NeededSurahs(folders) <==> n in Shown(surahNumbers, allVerses)
    {
      if n in verseRanges {
        ElementsEmptyIff(verseRanges[n]);
      }
    }
  }

  lemma FetchedIsSurahVerses(verses: map<int, string>, folders: seq<ClipFolder>,
                             api: map<int, seq<ApiVerse>>, n: int)
    requires n in VerseSets(folders)
    requires Fetched(verses, ApiFor(api, n), VerseSets(folders)[n])
    ensures verses == SurahVerses(folders, api, n)
  {
  }
}
