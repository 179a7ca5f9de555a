/** Clip file names: `<ReciterToken>_<range>.mp3`, for example
    `ShiekhMagdiOsman_1-6.mp3`, give a reciter label ("Shiekh Magdi Osman"), the
    range text ("1-6") and a display name; `CreateClipAudioOption` turns a file name
    into a playable clip option. */
module ClipParser {
  import opened Strings

  datatype ParsedClip = ParsedClip(reciter: string, range: string, displayName: string)

  /** An entry of a surah's audio-option list. */
  datatype AudioOption = AudioOption(name: string, reciter: string, range: string, url: string, isClip: bool)

  const Mp3Extension := ".mp3"
  const ClipsFolder := "audio_files/clips/"

  predicate IsUpper(c: char) { 'A' <= c <= 'Z' }
  predicate IsLower(c: char) { 'a' <= c <= 'z' }

  // ---------------------------------------------------------------------------
  // Reciter-token formatting: the two global regular-expression replacements
  // ---------------------------------------------------------------------------

  /** `.replace(/([a-z])([A-Z])/g, '$1 $2')`: matches are found left to right and
      do not overlap; after a match the scan resumes behind it. */
  function SpaceCamel(s: string): string {
    if |s| < 2 then s
    else if IsLower(s[0]) && IsUpper(s[1]) then [s[0], ' ', s[1]] + SpaceCamel(s[2..])
    else [s[0]] + SpaceCamel(s[1..])
  }

  /** `.replace(/([A-Z])([A-Z][a-z])/g, '$1 $2')`, with the same scanning discipline. */
  function SpaceAcronym(s: string): string {
    if |s| < 3 then s
    else if IsUpper(s[0]) && IsUpper(s[1]) && IsLower(s[2]) then [s[0], ' ', s[1], s[2]] + SpaceAcronym(s[3..])
    else [s[0]] + SpaceAcronym(s[1..])
  }

  function FormatReciter(token: string): string {
    SpaceAcronym(SpaceCamel(token))
  }

  /** The reference reading of the formatting: a single space goes before a
      character `c` preceded by `p` exactly when `p` is lower case and `c` upper
      case, or when `p` and `c` are upper case and the character after `c` is
      lower case. Nothing else is added, removed or changed. */
  predicate BreakBefore(p: char, c: char, after: string) {
    (IsLower(p) && IsUpper(c)) || (IsUpper(p) && IsUpper(c) && after != [] && IsLower(after[0]))
  }

  /** The text of `s` when it follows the character `p`. */
  function SpacedAfter(p: char, s: string): string
    decreases s
  {
    if s == [] then []
    else (if BreakBefore(p, s[0], s[1..]) then " " else "") + [s[0]] + SpacedAfter(s[0], s[1..])
  }

  function Spaced(s: string): string {
    if s == [] then [] else [s[0]] + SpacedAfter(s[0], s[1..])
  }

  /** The first pass alone, read the same way. */
  function CamelAfter(p: char, s: string): string
    decreases s
  {
    if s == [] then []
    else (if IsLower(p) && IsUpper(s[0]) then " " else "") + [s[0]] + CamelAfter(s[0], s[1..])
  }

  function Camel(s: string): string {
    if s == [] then [] else [s[0]] + CamelAfter(s[0], s[1..])
  }

  /** The first scanner finds every lower-upper boundary. */
  lemma {:induction false} SpaceCamelIsCamel(s: string)
    ensures SpaceCamel(s) == Camel(s)
    decreases |s|
  {
    if |s| == 1 {
      assert Camel(s) == [s[0]];
    } else if |s| >= 2 {
      if IsLower(s[0]) && IsUpper(s[1]) {
        SpaceCamelIsCamel(s[2..]);
        assert s[1..][1..] == s[2..];
        CamelAfterNoBreak(s[1], s[2..]);
      } else {
        SpaceCamelIsCamel(s[1..]);
        CamelAfterNoBreak(s[0], s[1..]);
      }
    }
  }

  lemma CamelAfterNoBreak(p: char, t: string)
    requires !(IsLower(p) && t != [] && IsUpper(t[0]))
    ensures CamelAfter(p, t) == Camel(t)
  {
  }

  lemma SpaceAcronymSkip(c: char, x: string)
    requires !IsUpper(c)
    ensures SpaceAcronym([c] + x) == [c] + SpaceAcronym(x)
  {
    assert ([c] + x)[1..] == x;
  }

  /** The second scanner, run over the first one's output from a character `c`,
      inserts exactly the remaining boundaries of the reference reading. */
  lemma {:induction false} AcronymAfterCamelFrom(c: char, rest: string)
    ensures SpaceAcronym([c] + CamelAfter(c, rest)) == [c] + SpacedAfter(c, rest)
    decreases |rest|
  {
    if rest != [] {
      var d, r2 := rest[0], rest[1..];
      assert rest == [d] + r2;
      if IsLower(c) && IsUpper(d) {
        AcronymAfterCamelFrom(d, r2);
        CamelBoundaryStep(c, d, r2);
      } else if IsUpper(c) && IsUpper(d) && r2 != [] && IsLower(r2[0]) {
        var e, r3 := r2[0], r2[1..];
        assert r2 == [e] + r3;
        AcronymAfterCamelAfter(e, r3);
        AcronymBoundaryStep(c, d, e, r3);
      } else {
        AcronymAfterCamelFrom(d, r2);
        AcronymNoMatchAt(c, d, r2);
        NoBoundaryStep(c, d, r2);
      }
    }
  }

  /** A lower-to-upper boundary: the first pass put the space, the second
      passes over it. */
  lemma CamelBoundaryStep(c: char, d: char, r2: string)
    requires IsLower(c) && IsUpper(d)
    requires SpaceAcronym([d] + CamelAfter(d, r2)) == [d] + SpacedAfter(d, r2)
    ensures SpaceAcronym([c] + CamelAfter(c, [d] + r2)) == [c] + SpacedAfter(c, [d] + r2)
  {
    AcronymPassAtCamel(c, d, r2);
    SpacedAtCamel(c, d, r2);
  }

  lemma AcronymPassAtCamel(c: char, d: char, r2: string)
    requires IsLower(c) && IsUpper(d)
    ensures SpaceAcronym([c] + CamelAfter(c, [d] + r2)) == [c, ' '] + SpaceAcronym([d] + CamelAfter(d, r2))
  {
    var x := CamelAfter(d, r2);
    CamelAfterCons(c, d, r2);
    assert [c] + CamelAfter(c, [d] + r2) == [c] + ([' '] + ([d] + x));
    SpaceAcronymSkip(c, [' '] + ([d] + x));
    SpaceAcronymSkip(' ', [d] + x);
  }

  lemma SpacedAtCamel(c: char, d: char, r2: string)
    requires IsLower(c) && IsUpper(d)
    ensures [c] + SpacedAfter(c, [d] + r2) == [c, ' '] + ([d] + SpacedAfter(d, r2))
  {
    SpacedAfterCons(c, d, r2);
  }

  /** Two capitals followed by a lower-case letter: the first pass left them
      together, the second inserts the space between the capitals. */
  lemma AcronymBoundaryStep(c: char, d: char, e: char, r3: string)
    requires IsUpper(c) && IsUpper(d) && IsLower(e)
    requires SpaceAcronym(CamelAfter(e, r3)) == SpacedAfter(e, r3)
    ensures SpaceAcronym([c] + CamelAfter(c, [d] + ([e] + r3))) == [c] + SpacedAfter(c, [d] + ([e] + r3))
  {
    AcronymPassAtCapitals(c, d, e, r3);
    SpacedAtCapitals(c, d, e, r3);
  }

  lemma AcronymPassAtCapitals(c: char, d: char, e: char, r3: string)
    requires IsUpper(c) && IsUpper(d) && IsLower(e)
    ensures SpaceAcronym([c] + CamelAfter(c, [d] + ([e] + r3))) == [c, ' ', d, e] + SpaceAcronym(CamelAfter(e, r3))
  {
    var x := CamelAfter(e, r3);
    CamelAfterCons(c, d, [e] + r3);
    CamelAfterCons(d, e, r3);
    SpaceAcronymMatch(c, d, e, x);
  }

  lemma SpacedAtCapitals(c: char, d: char, e: char, r3: string)
    requires IsUpper(c) && IsUpper(d) && IsLower(e)
    ensures [c] + SpacedAfter(c, [d] + ([e] + r3)) == [c, ' ', d, e] + SpacedAfter(e, r3)
  {
    var y := SpacedAfter(e, r3);
    SpacedAfterCons(d, e, r3);
    assert BreakBefore(c, d, [e] + r3);
    SpacedAfterCons(c, d, [e] + r3);
    assert [c] + ([' ', d] + ([e] + y)) == [c, ' ', d, e] + y;
  }

  /** No boundary before `d`: both readings copy `d` and carry on from it. */
  lemma NoBoundaryStep(c: char, d: char, r2: string)
    requires !(IsLower(c) && IsUpper(d))
    requires !(IsUpper(c) && IsUpper(d) && r2 != [] && IsLower(r2[0]))
    requires SpaceAcronym([d] + CamelAfter(d, r2)) == [d] + SpacedAfter(d, r2)
    requires SpaceAcronym([c] + CamelAfter(c, [d] + r2)) == [c] + SpaceAcronym([d] + CamelAfter(d, r2))
    ensures SpaceAcronym([c] + CamelAfter(c, [d] + r2)) == [c] + SpacedAfter(c, [d] + r2)
  {
    assert !BreakBefore(c, d, r2);
    SpacedAfterCons(c, d, r2);
  }

  /** `CamelAfter` on a string that starts with `d`. */
  lemma CamelAfterCons(p: char, d: char, u: string)
    ensures IsLower(p) && IsUpper(d) ==> CamelAfter(p, [d] + u) == [' ', d] + CamelAfter(d, u)
    ensures !(IsLower(p) && IsUpper(d)) ==> CamelAfter(p, [d] + u) == [d] + CamelAfter(d, u)
  {
    assert ([d] + u)[0] == d && ([d] + u)[1..] == u;
    assert " " + [d] == [' ', d] && "" + [d] == [d];
  }

  /** `SpacedAfter` on a string that starts with `d`. */
  lemma SpacedAfterCons(p: char, d: char, u: string)
    ensures BreakBefore(p, d, u) ==> SpacedAfter(p, [d] + u) == [' ', d] + SpacedAfter(d, u)
    ensures !BreakBefore(p, d, u) ==> SpacedAfter(p, [d] + u) == [d] + SpacedAfter(d, u)
  {
    assert ([d] + u)[0] == d && ([d] + u)[1..] == u;
    assert " " + [d] == [' ', d] && "" + [d] == [d];
  }

  /** The second pass matches at two capitals followed by a lower-case letter. */
  lemma SpaceAcronymMatch(c: char, d: char, e: char, x: string)
    requires IsUpper(c) && IsUpper(d) && IsLower(e)
    ensures SpaceAcronym([c] + ([d] + ([e] + x))) == [c, ' ', d, e] + SpaceAcronym(x)
  {
    var w := [c] + ([d] + ([e] + x));
    assert w[0] == c && w[1] == d && w[2] == e && w[3..] == x;
  }

  /** Without that pattern at its start, the second pass keeps the first
      character and moves on. */
  lemma SpaceAcronymNoMatch(a: char, b: char, y: string)
    requires !(IsUpper(a) && IsUpper(b) && y != [] && IsLower(y[0]))
    ensures SpaceAcronym([a] + ([b] + y)) == [a] + SpaceAcronym([b] + y)
  {
    var w := [a] + ([b] + y);
    assert w[0] == a && w[1] == b && w[1..] == [b] + y;
    if y != [] {
      assert w[2] == y[0];
    }
  }

  lemma CamelAfterHead(p: char, t: string)
    ensures t == [] ==> CamelAfter(p, t) == []
    ensures t != [] ==> CamelAfter(p, t)[0] == if IsLower(p) && IsUpper(t[0]) then ' ' else t[0]
  {
  }

  /** Where the reference reading puts no space before `d`, the second pass does
      not match at `c` either and moves on by one character. */
  lemma AcronymNoMatchAt(c: char, d: char, r2: string)
    requires !(IsLower(c) && IsUpper(d))
    requires !(IsUpper(c) && IsUpper(d) && r2 != [] && IsLower(r2[0]))
    ensures SpaceAcronym([c] + CamelAfter(c, [d] + r2)) == [c] + SpaceAcronym([d] + CamelAfter(d, r2))
  {
    var x := CamelAfter(d, r2);
    CamelAfterCons(c, d, r2);
    assert CamelAfter(c, [d] + r2) == [d] + x;
    CamelAfterHead(d, r2);
    SpaceAcronymNoMatch(c, d, x);
  }

  /** The same, after a character that is not upper case (so no boundary that
      needs a look-behind is pending). */
  lemma {:induction false} AcronymAfterCamelAfter(p: char, t: string)
    requires !IsUpper(p)
    ensures SpaceAcronym(CamelAfter(p, t)) == SpacedAfter(p, t)
    decreases |t|
  {
    if t != [] {
      var f, t2 := t[0], t[1..];
      assert t == [f] + t2;
      AcronymAfterCamelFrom(f, t2);
      CamelAfterCons(p, f, t2);
      SpacedAfterCons(p, f, t2);
      if IsLower(p) && IsUpper(f) {
        var x := CamelAfter(f, t2);
        assert [' ', f] + x == [' '] + ([f] + x);
        SpaceAcronymSkip(' ', [f] + x);
        assert [' '] + ([f] + SpacedAfter(f, t2)) == [' ', f] + SpacedAfter(f, t2);
      }
    }
  }

  /** The two replacements together are the reference reading: single spaces are
      inserted before each lower-to-upper boundary and before the last capital of
      a run of capitals that is followed by a lower-case letter; every character
      of the token is kept, in order. */
  lemma FormatReciterIsSpaced(token: string)
    ensures FormatReciter(token) == Spaced(token)
  {
    SpaceCamelIsCamel(token);
    if token != [] {
      AcronymAfterCamelFrom(token[0], token[1..]);
    }
  }

  function RemoveSpaces(s: string): string {
    if s == [] then [] else (if s[0] == ' ' then [] else [s[0]]) + RemoveSpaces(s[1..])
  }

  lemma RemoveSpacesAppend(a: string, b: string)
    ensures RemoveSpaces(a + b) == RemoveSpaces(a) + RemoveSpaces(b)
  {
    if a != [] {
      assert (a + b)[1..] == a[1..] + b;
      RemoveSpacesAppend(a[1..], b);
    } else {
      assert a + b == b;
    }
  }

  lemma {:induction false} SpacedAfterOnlyAddsSpaces(p: char, s: string)
    ensures RemoveSpaces(SpacedAfter(p, s)) == RemoveSpaces(s)
    decreases |s|
  {
    if s != [] {
      SpacedAfterOnlyAddsSpaces(s[0], s[1..]);
      var pre := if BreakBefore(p, s[0], s[1..]) then " " else "";
      RemoveSpacesAppend(pre + [s[0]], SpacedAfter(s[0], s[1..]));
      RemoveSpacesAppend(pre, [s[0]]);
      assert RemoveSpaces(pre) == [];
      assert s == [s[0]] + s[1..];
      RemoveSpacesAppend([s[0]], s[1..]);
    }
  }

  /** Formatting only inserts spaces: with every space removed, the label and the
      token are the same text. */
  lemma FormatReciterOnlyAddsSpaces(token: string)
    ensures RemoveSpaces(FormatReciter(token)) == RemoveSpaces(token)
  {
    FormatReciterIsSpaced(token);
    if token != [] {
      SpacedAfterOnlyAddsSpaces(token[0], token[1..]);
      RemoveSpacesAppend([token[0]], SpacedAfter(token[0], token[1..]));
      RemoveSpacesAppend([token[0]], token[1..]);
      assert token == [token[0]] + token[1..];
    }
  }

  // ---------------------------------------------------------------------------
  // parseClipFilename
  // ---------------------------------------------------------------------------

  function StripMp3(filename: string): string {
    StripSuffix(filename, Mp3Extension)
  }

  function DisplayName(reciter: string, range: string): string {
    reciter + " (" + range + ")"
  }

  /** `parseClipFilename`: `None` (null) unless the name, less one trailing `.mp3`,
      splits on `_` into exactly two pieces. */
  function ParseClipFilename(filename: string): (r: Option<ParsedClip>)
    ensures r.Some? ==> r.value.displayName == DisplayName(r.value.reciter, r.value.range)
    ensures r.Some? ==> '_' !in r.value.range
  {
    var parts := Split(StripMp3(filename), '_');
    if |parts| != 2 then None
    else
      SplitPiecesHaveNoSeparator(StripMp3(filename), '_');
      var reciter := FormatReciter(parts[0]);
      Some(ParsedClip(reciter, parts[1], DisplayName(reciter, parts[1])))
  }

  /** Parsing fails exactly when the name, less one trailing `.mp3`, does not hold
      exactly one underscore. */
  lemma ParseFailsIffNotOneUnderscore(filename: string)
    ensures ParseClipFilename(filename).None? <==> Count(StripMp3(filename), '_') != 1
  {
    SplitCount(StripMp3(filename), '_');
  }

  /** On success the name is `<token>_<range>` (plus the removed `.mp3`): the range
      is the text after the underscore, verbatim, and the reciter label is the
      formatted token. */
  lemma ParseSuccessShape(filename: string)
    requires ParseClipFilename(filename).Some?
    ensures var p := ParseClipFilename(filename).value;
            exists token :: '_' !in token
                         && StripMp3(filename) == token + "_" + p.range
                         && p.reciter == FormatReciter(token)
  {
    var stem := StripMp3(filename);
    SplitTwoPieces(stem, '_');
    var token := Split(stem, '_')[0];
    assert stem == token + "_" + ParseClipFilename(filename).value.range;
  }

  /** Round trip: composing a name from a token and a range (neither holding `_`)
      and parsing it gives back the range verbatim and the formatted token. */
  lemma ParseComposedName(token: string, range: string)
    requires '_' !in token && '_' !in range
    ensures ParseClipFilename(token + "_" + range + Mp3Extension)
         == Some(ParsedClip(FormatReciter(token), range, DisplayName(FormatReciter(token), range)))
  {
    var name := token + "_" + range + Mp3Extension;
    assert EndsWith(name, Mp3Extension);
    assert StripMp3(name) == token + ['_'] + range;
    SplitTwo(token, range, '_');
  }

  /** Only one trailing `.mp3` is removed: a doubled extension leaves the second
      one in the range. */
  lemma DoubledExtensionStaysInRange(token: string, range: string)
    requires '_' !in token && '_' !in range
    ensures ParseClipFilename(token + "_" + range + Mp3Extension + Mp3Extension)
         == Some(ParsedClip(FormatReciter(token), range + Mp3Extension,
                            DisplayName(FormatReciter(token), range + Mp3Extension)))
  {
    assert '_' !in range + Mp3Extension;
    ParseComposedName(token, range + Mp3Extension);
    assert token + "_" + range + Mp3Extension + Mp3Extension
        == token + "_" + (range + Mp3Extension) + Mp3Extension;
  }

  /** A capitalised word followed by a capital letter: the first pass puts one
      space between them. */
  lemma {:induction false} SpaceCamelWordThenCapital(a: string, b: string)
    requires |a| >= 1 && IsLower(a[|a| - 1]) && |b| >= 1 && IsUpper(b[0])
    requires forall i :: 0 <= i < |a| - 1 ==> !(IsLower(a[i]) && IsUpper(a[i + 1]))
    ensures SpaceCamel(a + b) == a + " " + SpaceCamel(b)
    decreases |a|
  {
    if |a| == 1 {
      assert (a + b)[2..] == b[1..];
      assert SpaceCamel(b) == [b[0]] + SpaceCamel(b[1..]);
    } else {
      assert (a + b)[1..] == a[1..] + b;
      SpaceCamelWordThenCapital(a[1..], b);
    }
  }

  /** Without a lower-to-upper boundary the first pass changes nothing. */
  lemma {:induction false} SpaceCamelNoBoundary(s: string)
    requires forall i :: 0 <= i < |s| - 1 ==> !(IsLower(s[i]) && IsUpper(s[i + 1]))
    ensures SpaceCamel(s) == s
    decreases |s|
  {
    if |s| >= 2 {
      SpaceCamelNoBoundary(s[1..]);
    }
  }

  /** Without two adjacent capitals the second pass changes nothing. */
  lemma {:induction false} SpaceAcronymNoCapitalPair(s: string)
    requires forall i :: 0 <= i < |s| - 1 ==> !(IsUpper(s[i]) && IsUpper(s[i + 1]))
    ensures SpaceAcronym(s) == s
    decreases |s|
  {
    if |s| >= 3 {
      SpaceAcronymNoCapitalPair(s[1..]);
    }
  }

  /** A run of characters with no two adjacent capitals and no capital at its end
      passes through the second pass unchanged, whatever follows it. */
  lemma {:induction false} SpaceAcronymPlainWord(a: string, x: string)
    requires |a| >= 1 && !IsUpper(a[|a| - 1])
    requires forall i :: 0 <= i < |a| - 1 ==> !(IsUpper(a[i]) && IsUpper(a[i + 1]))
    ensures SpaceAcronym(a + x) == a + SpaceAcronym(x)
    decreases |a|
  {
    var s := a + x;
    assert s[1..] == a[1..] + x;
    if |a| == 1 {
      SpaceAcronymSkip(a[0], x);
    } else {
      assert s[0] == a[0] && s[1] == a[1];
      SpaceAcronymNoPairHead(s);
      SpaceAcronymPlainWord(a[1..], x);
      assert a + SpaceAcronym(x) == [a[0]] + (a[1..] + SpaceAcronym(x));
    }
  }

  /** The second pass keeps a first character that does not start a pair of
      capitals and goes on from the next one. */
  lemma SpaceAcronymNoPairHead(s: string)
    requires |s| >= 2 && !(IsUpper(s[0]) && IsUpper(s[1]))
    ensures SpaceAcronym(s) == [s[0]] + SpaceAcronym(s[1..])
  {
    if |s| < 3 {
      assert s == [s[0]] + s[1..];
    }
  }

  lemma CamelPassOnThreeWords(a: string, b: string, c: string)
    requires a == "Shiekh" && b == "Magdi" && c == "Osman"
    ensures SpaceCamel(a + (b + c)) == a + " " + (b + " " + c)
  {
    SpaceCamelNoBoundary(c);
    SpaceCamelWordThenCapital(b, c);
    SpaceCamelWordThenCapital(a, b + c);
  }

  lemma AcronymPassOnThreeWords(a: string, b: string, c: string)
    requires a == "Shiekh" && b == "Magdi" && c == "Osman"
    ensures SpaceAcronym(a + " " + (b + " " + c)) == a + " " + (b + " " + c)
  {
    var a', b' := a + " ", b + " ";
    assert a + " " + (b + " " + c) == a' + (b' + c);
    SpaceAcronymNoCapitalPair(c);
    SpaceAcronymPlainWord(b', c);
    SpaceAcronymPlainWord(a', b' + c);
  }

  /** The example token and label as three words. */
  lemma ShiekhMagdiOsmanWords(a: string, b: string, c: string)
    requires a == "Shiekh" && b == "Magdi" && c == "Osman"
    ensures a + (b + c) == "ShiekhMagdiOsman"
    ensures a + " " + (b + " " + c) == "Shiekh Magdi Osman"
  {
    assert a + (b + c) == "Shiekh" + "MagdiOsman";
    assert a + " " + (b + " " + c) == "Shiekh " + "Magdi Osman";
  }

  lemma FormatShiekhMagdiOsman(token: string)
    requires token == "ShiekhMagdiOsman"
    ensures FormatReciter(token) == "Shiekh Magdi Osman"
  {
    var a, b, c := "Shiekh", "Magdi", "Osman";
    ShiekhMagdiOsmanWords(a, b, c);
    CamelPassOnThreeWords(a, b, c);
    AcronymPassOnThreeWords(a, b, c);
  }

  lemma FormatStranger(token: string)
    requires token == "Stranger"
    ensures FormatReciter(token) == "Stranger"
  {
    SpaceCamelNoBoundary(token);
    SpaceAcronymNoCapitalPair(token);
  }

  /** The example documented beside the parser: `ShiekhMagdiOsman_1-6.mp3`. */
  lemma ParseShiekhMagdiOsmanExample(token: string, range: string)
    requires token == "ShiekhMagdiOsman" && range == "1-6"
    ensures ParseClipFilename(token + "_" + range + Mp3Extension).Some?
    ensures ParseClipFilename(token + "_" + range + Mp3Extension).value.reciter == "Shiekh Magdi Osman"
    ensures ParseClipFilename(token + "_" + range + Mp3Extension).value.range == "1-6"
  {
    assert '_' !in token && '_' !in range;
    ParseComposedName(token, range);
    FormatShiekhMagdiOsman(token);
  }

  // ---------------------------------------------------------------------------
  // Clip options
  // ---------------------------------------------------------------------------

  function ClipUrl(baseUrl: string, folder: string, filename: string): string {
    baseUrl + ClipsFolder + folder + "/" + filename
  }

  /** `createClipAudioOption`: `None` exactly when the name does not parse;
      otherwise the parsed fields, a clip flag and the file's URL under the clips
      folder. */
  function CreateClipAudioOption(filename: string, folder: string, baseUrl: string): (r: Option<AudioOption>)
    ensures r.None? <==> ParseClipFilename(filename).None?
    ensures r.Some? ==> var p := ParseClipFilename(filename).value;
                        && r.value.name == p.displayName
                        && r.value.reciter == p.reciter
                        && r.value.range == p.range
                        && r.value.isClip
    ensures r.Some? ==> r.value.url == baseUrl + ClipsFolder + folder + "/" + filename
    ensures r.Some? ==> EndsWith(r.value.url, "/" + filename)
  {
    match ParseClipFilename(filename)
    case None => None
    case Some(p) =>
      var url := ClipUrl(baseUrl, folder, filename);
      assert url == (baseUrl + ClipsFolder + folder) + ("/" + filename);
      Some(AudioOption(p.displayName, p.reciter, p.range, url, true))
  }

  /** `loadClipsForSurah` is a placeholder that never finds a clip. */
  function LoadClipsForSurah(surahNumber: int, folder: string): (r: seq<AudioOption>)
    ensures |r| == 0
  {
    []
  }
}
