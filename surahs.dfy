/** The static catalog of the 114 surahs: number, display name, Arabic
    placeholder name and, for the ten surahs that have a recording, the audio
    file's URL under the build's base URL. */
module Surahs {
  import opened Strings
  import opened ClipParser

  datatype Surah = Surah(
    id: int,
    number: int,
    name: string,
    nameArabic: string,
    audioUrl: Option<string>,
    additionalClips: seq<AudioOption>)

  const SurahCount := 114

  /** `surahNames`, in surah order. */
  const SurahNames: seq<string> := [
     "Al-Fatihah", "Al-Baqarah", "Al-Imran", "An-Nisa", "Al-Ma'idah", "Al-An'am",
     "Al-A'raf", "Al-Anfal", "At-Tawbah", "Yunus", "Hud", "Yusuf",
     "Ar-Ra'd", "Ibrahim", "Al-Hijr", "An-Nahl", "Al-Isra", "Al-Kahf",
     "Maryam", "Ta-Ha", "Al-Anbiya", "Al-Hajj", "Al-Mu'minun", "An-Nur",
     "Al-Furqan", "Ash-Shu'ara", "An-Naml", "Al-Qasas", "Al-'Ankabut", "Ar-Rum",
     "Luqman", "As-Sajdah", "Al-Ahzab", "Saba", "Fatir", "Ya-Sin",
     "As-Saffat", "Sad", "Az-Zumar", "Ghafir", "Fussilat", "Ash-Shura",
     "Az-Zukhruf", "Ad-Dukhan", "Al-Jathiyah", "Al-Ahqaf", "Muhammad", "Al-Fath",
     "Al-Hujurat", "Qaf", "Adh-Dhariyat", "At-Tur", "An-Najm", "Al-Qamar",
     "Ar-Rahman", "Al-Waqi'ah", "Al-Hadid", "Al-Mujadilah", "Al-Hashr", "Al-Mumtahanah",
     "As-Saff", "Al-Jumu'ah", "Al-Munafiqun", "At-Taghabun", "At-Talaq", "At-Tahrim",
     "Al-Mulk", "Al-Qalam", "Al-Haqqah", "Al-Ma'arij", "Nuh", "Al-Jinn",
     "Al-Muzzammil", "Al-Muddaththir", "Al-Qiyamah", "Al-Insan", "Al-Mursalat", "An-Naba",
     "An-Nazi'at", "'Abasa", "At-Takwir", "Al-Infitar", "Al-Mutaffifin", "Al-Inshiqaq",
     "Al-Buruj", "At-Tariq", "Al-A'la", "Al-Ghashiyah", "Al-Fajr", "Al-Balad",
     "Ash-Shams", "Al-Lail", "Ad-Duhaa", "Ash-Sharh", "At-Tin", "Al-'Alaq",
     "Al-Qadr", "Al-Bayyina", "Az-Zalzalah", "Al-'Adiyat", "Al-Qari'ah", "At-Takathur",
     "Al-'Asr", "Al-Humazah", "Al-Fil", "Quraish", "Al-Ma'un", "Al-Kawthar",
     "Al-Kafirun", "An-Nasr", "Al-Masad", "Al-Ikhlas", "Al-Falaq", "An-Nas"
  ]

  /** The Arabic word for "surah" followed by a space. */
  const ArabicSurahPrefix := "\U{0633}\U{0648}\U{0631}\U{0629} "

  /** The recording of surah `number`, if there is one: the first nine surahs
      have numbered files, surah 112 has its own file, the others none. */
  function AudioUrl(baseUrl: string, number: nat): Option<string> {
    if number <= 9 then Some(baseUrl + "audio_files/audio" + DecimalString(number) + Mp3Extension)
    else if number == 112 then Some(baseUrl + "audio_files/surah-iklas.mp3")
    else None
  }

  /** The catalog entry at position `i`. */
  function MakeSurah(baseUrl: string, i: nat): Surah
    requires i < |SurahNames|
  {
    var number := i + 1;
    Surah(number, number, DecimalString(number) + ". " + SurahNames[i],
          ArabicSurahPrefix + DecimalString(number), AudioUrl(baseUrl, number), [])
  }

  /** `surahs`: `Array.from({ length: 114 }, ...)`. */
  function Catalog(baseUrl: string): (c: seq<Surah>)
    ensures |c| == SurahCount
  {
    seq(SurahCount, i requires 0 <= i < SurahCount => MakeSurah(baseUrl, i))
  }

  predicate HasAudio(s: Surah) {
    s.audioUrl.Some?
  }

  /** `surahs.findIndex(s => s.id === id)`: the first position holding `id`,
      or -1. */
  function FindIndexById(surahs: seq<Surah>, id: int): (i: int)
    ensures -1 <= i < |surahs|
    ensures i >= 0 ==> surahs[i].id == id && forall j :: 0 <= j < i ==> surahs[j].id != id
    ensures i == -1 <==> forall j :: 0 <= j < |surahs| ==> surahs[j].id != id
  {
    if surahs == [] then -1
    else if surahs[0].id == id then 0
    else
      var k := FindIndexById(surahs[1..], id);
      if k == -1 then -1 else k + 1
  }

  predicate UniqueIds(surahs: seq<Surah>) {
    forall i, j :: 0 <= i < j < |surahs| ==> surahs[i].id != surahs[j].id
  }

  // ---------------------------------------------------------------------------
  // Facts about the catalog
  // ---------------------------------------------------------------------------

  lemma NameTableSize()
    ensures |SurahNames| == SurahCount
  {
  }

  /** Entry `i` is surah `i + 1`: id and number `i + 1`, the name table's `i`-th
      name behind its number, the Arabic placeholder and no extra clips. */
  lemma CatalogEntry(baseUrl: string, i: nat)
    requires i < SurahCount
    ensures var s := Catalog(baseUrl)[i];
            && s.id == i + 1 && s.number == i + 1
            && s.name == DecimalString(i + 1) + ". " + SurahNames[i]
            && s.nameArabic == ArabicSurahPrefix + DecimalString(i + 1)
            && s.additionalClips == []
  {
  }

  /** A surah has a recording exactly when its number is at most 9 or is 112,
      and the URL is the numbered file or the surah-iklas file. */
  lemma CatalogAudio(baseUrl: string, i: nat)
    requires i < SurahCount
    ensures var s := Catalog(baseUrl)[i];
            && (HasAudio(s) <==> s.number <= 9 || s.number == 112)
            && (s.number <= 9 ==>
                  s.audioUrl == Some(baseUrl + "audio_files/audio" + DecimalString(s.number) + ".mp3"))
            && (s.number == 112 ==> s.audioUrl == Some(baseUrl + "audio_files/surah-iklas.mp3"))
  {
  }

  lemma HasAudioAt(baseUrl: string, i: nat)
    requires i < SurahCount
    ensures HasAudio(Catalog(baseUrl)[i]) <==> i <= 8 || i == 111
  {
    assert Catalog(baseUrl)[i].audioUrl == AudioUrl(baseUrl, i + 1);
  }

  /** Exactly ten surahs are playable: positions 0 to 8 and 111. */
  lemma PlayableCount(baseUrl: string)
    ensures var c := Catalog(baseUrl);
            var playable := set i | 0 <= i < |c| && HasAudio(c[i]);
            playable == {0, 1, 2, 3, 4, 5, 6, 7, 8, 111} && |playable| == 10
  {
    var c := Catalog(baseUrl);
    forall i | 0 <= i < |c|
      ensures HasAudio(c[i]) <==> i <= 8 || i == 111
    {
      HasAudioAt(baseUrl, i);
    }
    PlayableSet(c);
    TenPlayablePositions({0, 1, 2, 3, 4, 5, 6, 7, 8, 111});
  }

  /** The playable positions of a list of 114 surahs with recordings exactly at
      positions 0 to 8 and 111. */
  lemma PlayableSet(c: seq<Surah>)
    requires |c| == SurahCount
    requires forall i :: 0 <= i < |c| ==> (HasAudio(c[i]) <==> i <= 8 || i == 111)
    ensures (set i | 0 <= i < |c| && HasAudio(c[i])) == {0, 1, 2, 3, 4, 5, 6, 7, 8, 111}
  {
    var playable := set i | 0 <= i < |c| && HasAudio(c[i]);
    assert 0 in playable && 1 in playable && 2 in playable && 3 in playable && 4 in playable;
    assert 5 in playable && 6 in playable && 7 in playable && 8 in playable && 111 in playable;
  }

  lemma TenPlayablePositions(positions: set<int>)
    requires positions == {0, 1, 2, 3, 4, 5, 6, 7, 8, 111}
    ensures |positions| == 10
  {
  }

  /** Ids are `1..114` in order, so they are distinct and looking a surah up by
      its id finds position `id - 1`. */
  lemma CatalogFindIndex(baseUrl: string, id: int)
    requires 1 <= id <= SurahCount
    ensures UniqueIds(Catalog(baseUrl))
    ensures FindIndexById(Catalog(baseUrl), id) == id - 1
  {
    var c := Catalog(baseUrl);
    assert c[id - 1].id == id;
  }
}
