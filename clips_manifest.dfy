/** The hand-maintained list of clip files per surah and `getClipsForSurah`,
    which turns a surah's list into playable clip options. */
module ClipsManifest {
  import opened Strings
  import opened ClipParser

  datatype ManifestEntry = ManifestEntry(filename: string)

  /** `clipsManifest`: surah number to the clip files stored for it. */
  const Manifest: map<int, seq<ManifestEntry>> :=
    map[109 := [ManifestEntry("ShiekhMagdiOsman_1-6.mp3")],
        112 := [ManifestEntry("Stranger_1-4.mp3")]]

  predicate Parses(e: ManifestEntry) {
    ParseClipFilename(e.filename).Some?
  }

  /** `clips.map(...).filter(Boolean)`, where the mapped callback is written
      inline and builds the same object as `createClipAudioOption`: one option
      per entry whose filename parses, in list order. */
  function ClipOptions(entries: seq<ManifestEntry>, folder: string, baseUrl: string): (r: seq<AudioOption>)
    ensures |r| <= |entries|
  {
    if entries == [] then []
    else
      var front := ClipOptions(entries[..|entries| - 1], folder, baseUrl);
      match CreateClipAudioOption(entries[|entries| - 1].filename, folder, baseUrl)
      case None => front
      case Some(o) => front + [o]
  }

  /** The entries of `manifest[surahNumber] || []`. */
  function EntriesFor(manifest: map<int, seq<ManifestEntry>>, surahNumber: int): seq<ManifestEntry> {
    if surahNumber in manifest then manifest[surahNumber] else []
  }

  /** `getClipsForSurah(surahNumber, surahFolderName)` with the build's base URL
      as a parameter. */
  function GetClipsForSurah(surahNumber: int, folder: string, baseUrl: string): (r: seq<AudioOption>)
    ensures surahNumber !in Manifest ==> r == []
    ensures |r| <= |EntriesFor(Manifest, surahNumber)|
  {
    ClipOptions(EntriesFor(Manifest, surahNumber), folder, baseUrl)
  }

  /** Reference for which entries survive: the positions, ascending, of the
      entries whose filename parses. */
  function KeptIndices(entries: seq<ManifestEntry>): (ks: seq<int>)
    ensures Increasing(ks)
    ensures forall k :: 0 <= k < |ks| ==> 0 <= ks[k] < |entries|
    ensures forall i :: 0 <= i < |entries| ==> (i in ks <==> Parses(entries[i]))
  {
    if entries == [] then []
    else
      var front := entries[..|entries| - 1];
      var ks := KeptIndices(front);
      KeptAppend(entries, front, ks);
      if Parses(entries[|entries| - 1]) then ks + [|entries| - 1] else ks
  }

  /** Appending an entry keeps the kept positions of the entries before it and
      adds the new position exactly when the new name parses. */
  lemma KeptAppend(entries: seq<ManifestEntry>, front: seq<ManifestEntry>, ks: seq<int>)
    requires entries != [] && front == entries[..|entries| - 1]
    requires Increasing(ks)
    requires forall k :: 0 <= k < |ks| ==> 0 <= ks[k] < |front|
    requires forall i :: 0 <= i < |front| ==> (i in ks <==> Parses(front[i]))
    ensures var ks' := if Parses(entries[|entries| - 1]) then ks + [|entries| - 1] else ks;
            && Increasing(ks')
            && (forall k :: 0 <= k < |ks'| ==> 0 <= ks'[k] < |entries|)
            && (forall i :: 0 <= i < |entries| ==> (i in ks' <==> Parses(entries[i])))
  {
    var n := |entries| - 1;
    var ks' := if Parses(entries[n]) then ks + [n] else ks;
    forall i | 0 <= i < |entries|
      ensures i in ks' <==> Parses(entries[i])
    {
      if i < n {
        assert entries[i] == front[i];
        assert i in ks' <==> i in ks;
      } else {
        assert n !in ks;
      }
    }
  }

  /** `r` lists, in order, the options built from the entries at positions
      `ks`. */
  predicate BuiltFrom(entries: seq<ManifestEntry>, ks: seq<int>, r: seq<AudioOption>, folder: string, baseUrl: string) {
    && |r| == |ks|
    && forall k :: 0 <= k < |ks| ==>
         0 <= ks[k] < |entries| &&
         CreateClipAudioOption(entries[ks[k]].filename, folder, baseUrl) == Some(r[k])
  }

  /** The k-th option is the option built from the k-th surviving entry: the
      manifest order is kept and exactly the unparsable names are dropped. */
  lemma {:induction false} ClipOptionsKeepOrder(entries: seq<ManifestEntry>, folder: string, baseUrl: string)
    ensures BuiltFrom(entries, KeptIndices(entries), ClipOptions(entries, folder, baseUrl), folder, baseUrl)
  {
    if entries != [] {
      var n := |entries| - 1;
      var front := entries[..n];
      ClipOptionsKeepOrder(front, folder, baseUrl);
      var r, ks := ClipOptions(front, folder, baseUrl), KeptIndices(front);
      var o := CreateClipAudioOption(entries[n].filename, folder, baseUrl);
      BuiltFromWider(entries, front, ks, r, folder, baseUrl);
      if o.Some? {
        assert ClipOptions(entries, folder, baseUrl) == r + [o.value];
        assert KeptIndices(entries) == ks + [n];
        BuiltFromAppend(entries, ks, r, o.value, folder, baseUrl);
      } else {
        assert ClipOptions(entries, folder, baseUrl) == r;
        assert KeptIndices(entries) == ks;
      }
    }
  }

  /** Options built from a prefix are built from the whole list. */
  lemma BuiltFromWider(entries: seq<ManifestEntry>, front: seq<ManifestEntry>, ks: seq<int>, r: seq<AudioOption>,
                       folder: string, baseUrl: string)
    requires entries != [] && front == entries[..|entries| - 1]
    requires BuiltFrom(front, ks, r, folder, baseUrl)
    ensures BuiltFrom(entries, ks, r, folder, baseUrl)
  {
    forall k | 0 <= k < |ks|
      ensures 0 <= ks[k] < |entries|
      ensures CreateClipAudioOption(entries[ks[k]].filename, folder, baseUrl) == Some(r[k])
    {
      assert entries[ks[k]] == front[ks[k]];
    }
  }

  /** The option built from the last entry extends the list. */
  lemma BuiltFromAppend(entries: seq<ManifestEntry>, ks: seq<int>, r: seq<AudioOption>, o: AudioOption,
                        folder: string, baseUrl: string)
    requires entries != [] && BuiltFrom(entries, ks, r, folder, baseUrl)
    requires CreateClipAudioOption(entries[|entries| - 1].filename, folder, baseUrl) == Some(o)
    ensures BuiltFrom(entries, ks + [|entries| - 1], r + [o], folder, baseUrl)
  {
    var ks', r' := ks + [|entries| - 1], r + [o];
    forall k | 0 <= k < |ks'|
      ensures 0 <= ks'[k] < |entries|
      ensures CreateClipAudioOption(entries[ks'[k]].filename, folder, baseUrl) == Some(r'[k])
    {
      if k < |ks| {
        assert ks'[k] == ks[k] && r'[k] == r[k];
      }
    }
  }

  /** Every option returned for a surah is a clip whose fields are those of the
      parsed manifest filename and whose URL is the file under the surah's clips
      folder; the options follow the manifest order and skip exactly the
      unparsable names. */
  lemma GetClipsForSurahOptions(surahNumber: int, folder: string, baseUrl: string)
    ensures var entries := EntriesFor(Manifest, surahNumber);
            var r := GetClipsForSurah(surahNumber, folder, baseUrl);
            var ks := KeptIndices(entries);
            && |r| == |ks|
            && forall k :: 0 <= k < |ks| ==>
                 var f := entries[ks[k]].filename;
                 var p := ParseClipFilename(f).value;
                 && ParseClipFilename(f).Some?
                 && r[k].name == p.displayName
                 && r[k].reciter == p.reciter
                 && r[k].range == p.range
                 && r[k].isClip
                 && r[k].url == baseUrl + ClipsFolder + folder + "/" + f
                 && EndsWith(r[k].url, "/" + f)
  {
    var entries := EntriesFor(Manifest, surahNumber);
    ClipOptionsKeepOrder(entries, folder, baseUrl);
  }

  /** Surah 109 has one clip, by Shiekh Magdi Osman, covering verses 1-6. */
  lemma Surah109Clips(folder: string, baseUrl: string)
    ensures var r := GetClipsForSurah(109, folder, baseUrl);
            |r| == 1 && r[0].reciter == "Shiekh Magdi Osman" && r[0].range == "1-6" && r[0].isClip
  {
    var token, range := "ShiekhMagdiOsman", "1-6";
    assert Manifest[109][0].filename == token + "_" + range + Mp3Extension;
    ParseShiekhMagdiOsmanExample(token, range);
    ClipOptionsKeepOrder(Manifest[109], folder, baseUrl);
    assert KeptIndices(Manifest[109]) == [0];
  }

  /** Surah 112 has one clip, by Stranger, covering verses 1-4. */
  lemma Surah112Clips(folder: string, baseUrl: string)
    ensures var r := GetClipsForSurah(112, folder, baseUrl);
            |r| == 1 && r[0].reciter == "Stranger" && r[0].range == "1-4" && r[0].isClip
  {
    var token, range := "Stranger", "1-4";
    assert Manifest[112][0].filename == token + "_" + range + Mp3Extension;
    assert '_' !in token && '_' !in range;
    ParseComposedName(token, range);
    FormatStranger(token);
    ClipOptionsKeepOrder(Manifest[112], folder, baseUrl);
    assert KeptIndices(Manifest[112]) == [0];
  }
}
