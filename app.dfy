/** The player: the current surah, whether it is playing, the playback
    position and duration, and the handlers that change them (selection,
    play/pause, next/previous, the audio element's events and the keyboard).
    The browser's `Audio` element is reduced to its `src`; whether a `play()`
    call succeeds is a parameter of each handler that may start playback. */
module App {
  import opened Strings
  import opened Surahs

  // ---------------------------------------------------------------------------
  // Cyclic search for the nearest surah with a recording
  // ---------------------------------------------------------------------------

  datatype Direction = Forward | Backward

  /** The position `k` steps from `i` around a list of `n` surahs. */
  function Along(i: int, k: int, n: nat, dir: Direction): (r: int)
    requires n > 0
    ensures 0 <= r < n
  {
    match dir
    case Forward => (i + k) % n
    case Backward => (i - k) % n
  }

  /** One step of the search: `(i + 1) % n` forward; backward, `i - 1`, or
      `n - 1` from position 0. */
  function Step(i: int, n: nat, dir: Direction): (r: int)
    requires 0 <= i < n
    ensures 0 <= r < n
  {
    match dir
    case Forward => (i + 1) % n
    case Backward => if i == 0 then n - 1 else i - 1
  }

  /** The first offset `k` in `from..n` at which a surah with a recording sits,
      counting from `i` in direction `dir`. */
  function ScanFrom(surahs: seq<Surah>, i: int, dir: Direction, from: nat): Option<nat>
    requires |surahs| > 0
    decreases |surahs| + 1 - from
  {
    if from > |surahs| then None
    else if HasAudio(surahs[Along(i, from, |surahs|, dir)]) then Some(from)
    else ScanFrom(surahs, i, dir, from + 1)
  }

  /** The offset of the nearest surah with a recording strictly after `i` in
      direction `dir`, going round the list; offset `n` is `i` itself. */
  function NearestOffset(surahs: seq<Surah>, i: int, dir: Direction): Option<nat>
    requires |surahs| > 0
  {
    ScanFrom(surahs, i, dir, 1)
  }

  /** The position the navigation moves to from `i`, if any. */
  function Target(surahs: seq<Surah>, i: int, dir: Direction): Option<int>
    requires |surahs| > 0
  {
    match NearestOffset(surahs, i, dir)
    case None => None
    case Some(k) => Some(Along(i, k, |surahs|, dir))
  }

  /** The search loop of `handleNext`, `handlePrevious`, the `ended` handler
      and the arrow keys: step once from the current position, then keep
      stepping past surahs without a recording, at most `n` more times; the
      position reached is taken only if it has a recording. */
  method CyclicSearch(surahs: seq<Surah>, currentIndex: int, dir: Direction) returns (found: Option<int>)
    requires |surahs| > 0 && 0 <= currentIndex < |surahs|
    ensures found == Target(surahs, currentIndex, dir)
  {
    var n := |surahs|;
    var index := Step(currentIndex, n, dir);
    AlongZero(currentIndex, n, dir);
    StepAlong(currentIndex, 0, n, dir);
    var attempts := 0;
    while !HasAudio(surahs[index]) && attempts < n
      invariant 0 <= attempts <= n
      invariant index == Along(currentIndex, attempts + 1, n, dir)
      invariant forall m :: 1 <= m <= attempts ==> !HasAudio(surahs[Along(currentIndex, m, n, dir)])
      decreases n - attempts
    {
      StepAlong(currentIndex, attempts + 1, n, dir);
      index := Step(index, n, dir);
      attempts := attempts + 1;
    }
    if HasAudio(surahs[index]) {
      if attempts == n {
        AlongLap(currentIndex, 1, n, dir);
      }
      ScanFinds(surahs, currentIndex, dir, 1, attempts + 1);
      found := Some(index);
    } else {
      ScanMisses(surahs, currentIndex, dir, 1);
      found := None;
    }
  }

  // ---------------------------------------------------------------------------
  // Arithmetic of the search
  // ---------------------------------------------------------------------------

  /** A step from offset `k` lands on offset `k + 1`. */
  lemma StepAlong(i: int, k: int, n: nat, dir: Direction)
    requires n > 0 && 0 <= i < n
    ensures Step(Along(i, k, n, dir), n, dir) == Along(i, k + 1, n, dir)
  {
    match dir
    case Forward => StepForward(i + k, n);
    case Backward => StepBackward(i - k, n);
  }

  lemma StepForward(a: int, n: nat)
    requires n > 0
    ensures Step(a % n, n, Forward) == (a + 1) % n
  {
    ModAddOne(a, n);
  }

  lemma StepBackward(a: int, n: nat)
    requires n > 0
    ensures Step(a % n, n, Backward) == (a - 1) % n
  {
    ModSubOne(a, n);
  }

  lemma ModAddOne(a: int, n: nat)
    requires n > 0
    ensures (a % n + 1) % n == (a + 1) % n
  {
    var q, r := a / n, a % n;
    if r + 1 < n {
      ModUnique(a + 1, q, r + 1, n);
      ModUnique(r + 1, 0, r + 1, n);
    } else {
      ModUnique(a + 1, q + 1, 0, n);
      ModUnique(r + 1, 1, 0, n);
    }
  }

  lemma ModSubOne(a: int, n: nat)
    requires n > 0
    ensures (if a % n == 0 then n - 1 else a % n - 1) == (a - 1) % n
  {
    var q, r := a / n, a % n;
    if r == 0 {
      ModUnique(a - 1, q - 1, n - 1, n);
    } else {
      ModUnique(a - 1, q, r - 1, n);
    }
  }

  lemma MulAtLeast(n: int, d: int)
    requires n > 0 && d >= 1
    ensures n * d >= n
  {
  }

  /** Euclidean division is unique: `a == n * q + r` with `0 <= r < n` fixes
      the quotient and the remainder. */
  lemma ModUnique(a: int, q: int, r: int, n: int)
    requires n > 0 && 0 <= r < n && a == n * q + r
    ensures a % n == r && a / n == q
  {
    var q0, r0 := a / n, a % n;
    assert a == n * q0 + r0 && 0 <= r0 < n;
    if q0 < q {
      MulAtLeast(n, q - q0);
    } else if q < q0 {
      MulAtLeast(n, q0 - q);
    }
  }

  /** Adding a multiple of `n` does not change the remainder. */
  lemma ModShift(a: int, q: int, n: int)
    requires n > 0
    ensures (a + n * q) % n == a % n
  {
    var q0, r0 := a / n, a % n;
    assert a == n * q0 + r0 && 0 <= r0 < n;
    assert a + n * q == n * (q0 + q) + r0;
    ModUnique(a + n * q, q0 + q, r0, n);
  }

  lemma AlongZero(i: int, n: nat, dir: Direction)
    requires 0 <= i < n
    ensures Along(i, 0, n, dir) == i
  {
    ModUnique(i, 0, i, n);
  }

  /** Going `n` further round the list comes back to the same position. */
  lemma AlongLap(i: int, k: int, n: nat, dir: Direction)
    requires n > 0
    ensures Along(i, k + n, n, dir) == Along(i, k, n, dir)
  {
    match dir
    case Forward =>
      ModShift(i + k, 1, n);
    case Backward =>
      ModShift(i - k, -1, n);
  }

  /** The scan from `from` stops at the first offset `k` with a recording. */
  lemma {:induction false} ScanFinds(surahs: seq<Surah>, i: int, dir: Direction, from: nat, k: nat)
    requires |surahs| > 0 && 1 <= from <= k <= |surahs|
    requires HasAudio(surahs[Along(i, k, |surahs|, dir)])
    requires forall m :: from <= m < k ==> !HasAudio(surahs[Along(i, m, |surahs|, dir)])
    ensures ScanFrom(surahs, i, dir, from) == Some(k)
    decreases k - from
  {
    if from < k {
      ScanFinds(surahs, i, dir, from + 1, k);
    }
  }

  /** A scan that sees no recording at any offset from `from` to `n` fails. */
  lemma {:induction false} ScanMisses(surahs: seq<Surah>, i: int, dir: Direction, from: nat)
    requires |surahs| > 0 && 1 <= from
    requires forall m :: from <= m <= |surahs| ==> !HasAudio(surahs[Along(i, m, |surahs|, dir)])
    ensures ScanFrom(surahs, i, dir, from) == None
    decreases |surahs| + 1 - from
  {
    if from <= |surahs| {
      ScanMisses(surahs, i, dir, from + 1);
    }
  }

  /** What a successful scan returns: an offset at or after `from` with a
      recording, and none between. */
  lemma {:induction false} ScanSound(surahs: seq<Surah>, i: int, dir: Direction, from: nat)
    requires |surahs| > 0 && 1 <= from
    ensures ScanFrom(surahs, i, dir, from).Some? ==>
              var k := ScanFrom(surahs, i, dir, from).value;
              && from <= k <= |surahs|
              && HasAudio(surahs[Along(i, k, |surahs|, dir)])
              && forall m :: from <= m < k ==> !HasAudio(surahs[Along(i, m, |surahs|, dir)])
    ensures ScanFrom(surahs, i, dir, from).None? ==>
              forall m :: from <= m <= |surahs| ==> !HasAudio(surahs[Along(i, m, |surahs|, dir)])
    decreases |surahs| + 1 - from
  {
    if from <= |surahs| && !HasAudio(surahs[Along(i, from, |surahs|, dir)]) {
      ScanSound(surahs, i, dir, from + 1);
    }
  }

  /** Every position is reached at some offset from 1 to `n`. */
  lemma Covers(i: int, j: int, n: nat, dir: Direction) returns (k: nat)
    requires n > 0 && 0 <= i < n && 0 <= j < n
    ensures 1 <= k <= n && Along(i, k, n, dir) == j
  {
    match dir
    case Forward =>
      k := if j > i then j - i else j - i + n;
      if j > i {
        ModUnique(j, 0, j, n);
      } else {
        ModUnique(j + n, 1, j, n);
      }
    case Backward =>
      k := if i > j then i - j else i - j + n;
      if i > j {
        ModUnique(j, 0, j, n);
      } else {
        ModUnique(j - n, -1, j, n);
      }
  }

  // ---------------------------------------------------------------------------
  // What the search finds
  // ---------------------------------------------------------------------------

  /** The search moves to the nearest surah with a recording after `i` in
      direction `dir`, going round the list (possibly back to `i` itself), and
      finds nothing exactly when no surah has a recording. */
  lemma TargetIsNearest(surahs: seq<Surah>, i: int, dir: Direction)
    requires |surahs| > 0 && 0 <= i < |surahs|
    ensures Target(surahs, i, dir).None? <==> forall j :: 0 <= j < |surahs| ==> !HasAudio(surahs[j])
    ensures Target(surahs, i, dir).Some? ==>
              var k := NearestOffset(surahs, i, dir).value;
              && 1 <= k <= |surahs|
              && Target(surahs, i, dir).value == Along(i, k, |surahs|, dir)
              && HasAudio(surahs[Along(i, k, |surahs|, dir)])
              && forall m :: 1 <= m < k ==> !HasAudio(surahs[Along(i, m, |surahs|, dir)])
  {
    ScanSound(surahs, i, dir, 1);
    if Target(surahs, i, dir).None? {
      forall j | 0 <= j < |surahs|
        ensures !HasAudio(surahs[j])
      {
        var k := Covers(i, j, |surahs|, dir);
      }
    }
  }

  /** Going back undoes going forward: from the surah the forward search
      reaches, the backward search returns to the surah it started from, when
      that one has a recording. */
  lemma PreviousUndoesNext(surahs: seq<Surah>, i: int)
    requires |surahs| > 0 && 0 <= i < |surahs| && HasAudio(surahs[i])
    requires Target(surahs, i, Forward).Some?
    ensures Target(surahs, Target(surahs, i, Forward).value, Backward) == Some(i)
  {
    var n := |surahs|;
    TargetIsNearest(surahs, i, Forward);
    var k := NearestOffset(surahs, i, Forward).value;
    var j := Along(i, k, n, Forward);
    forall m | 0 <= m <= k
      ensures Along(j, m, n, Backward) == Along(i, k - m, n, Forward)
    {
      BackFromForward(i, k, m, n);
    }
    AlongZero(i, n, Forward);
    ScanFinds(surahs, j, Backward, 1, k);
  }

  lemma BackFromForward(i: int, k: int, m: int, n: nat)
    requires n > 0
    ensures Along(Along(i, k, n, Forward), m, n, Backward) == Along(i, k - m, n, Forward)
  {
    var a := i + k;
    ModShift(a % n - m, a / n, n);
    assert a % n - m + n * (a / n) == i + (k - m);
  }

  /** And symmetrically, going forward undoes going back. */
  lemma NextUndoesPrevious(surahs: seq<Surah>, i: int)
    requires |surahs| > 0 && 0 <= i < |surahs| && HasAudio(surahs[i])
    requires Target(surahs, i, Backward).Some?
    ensures Target(surahs, Target(surahs, i, Backward).value, Forward) == Some(i)
  {
    var n := |surahs|;
    TargetIsNearest(surahs, i, Backward);
    var k := NearestOffset(surahs, i, Backward).value;
    var j := Along(i, k, n, Backward);
    forall m | 0 <= m <= k
      ensures Along(j, m, n, Forward) == Along(i, k - m, n, Backward)
    {
      ForwardFromBack(i, k, m, n);
    }
    AlongZero(i, n, Backward);
    ScanFinds(surahs, j, Forward, 1, k);
  }

  lemma ForwardFromBack(i: int, k: int, m: int, n: nat)
    requires n > 0
    ensures Along(Along(i, k, n, Backward), m, n, Forward) == Along(i, k - m, n, Backward)
  {
    var a := i - k;
    ModShift(a % n + m, a / n, n);
    assert a % n + m + n * (a / n) == i - (k - m);
  }

  // ---------------------------------------------------------------------------
  // Player state and its transitions
  // ---------------------------------------------------------------------------

  /** The component's state: `currentSurah` (mirrored in `currentSurahRef`),
      `isPlaying`, `progress`, `duration`, and the audio element's `src`. */
  datatype PlayerState = PlayerState(
    currentSurah: Option<Surah>,
    isPlaying: bool,
    progress: real,
    duration: real,
    src: string)

  const Initial := PlayerState(None, false, 0.0, 0.0, "")

  /** What the handlers keep true: a current surah is a catalog entry with a
      recording, and the audio element is loaded with that recording. */
  predicate Consistent(surahs: seq<Surah>, s: PlayerState) {
    s.currentSurah.Some? ==>
      && s.currentSurah.value in surahs
      && HasAudio(s.currentSurah.value)
      && s.src == s.currentSurah.value.audioUrl.value
  }

  /** `setCurrentSurah(surah)` and the effect that runs when the value
      changes: the source is set to the surah's recording, progress goes back
      to 0 and playback is attempted. Setting the same surah again changes
      nothing. */
  function SetCurrent(s: PlayerState, surah: Surah, playOk: bool): PlayerState {
    if s.currentSurah == Some(surah) then s
    else if surah.audioUrl.None? then s.(currentSurah := Some(surah))
    else s.(currentSurah := Some(surah), src := surah.audioUrl.value, progress := 0.0, isPlaying := playOk)
  }

  /** `handleSurahSelect(surah)`. */
  function SurahSelect(s: PlayerState, surah: Surah, playOk: bool): PlayerState {
    if HasAudio(surah) then SetCurrent(s, surah, playOk) else s
  }

  /** `handlePlayPause()`, and the space key. */
  function PlayPause(s: PlayerState, playOk: bool): PlayerState {
    if s.currentSurah.None? then s
    else if s.isPlaying then s.(isPlaying := false)
    else s.(isPlaying := playOk)
  }

  /** `handleNext()` (`Forward`) and `handlePrevious()` (`Backward`), and the
      arrow keys: move to the nearest surah with a recording in that
      direction. */
  function Navigate(surahs: seq<Surah>, s: PlayerState, dir: Direction, playOk: bool): (r: PlayerState)
    requires |surahs| > 0 && Consistent(surahs, s)
    ensures Consistent(surahs, r)
  {
    if s.currentSurah.None? then s
    else
      var i := CurrentIndex(surahs, s);
      TargetIsNearest(surahs, i, dir);
      match Target(surahs, i, dir)
      case None => s
      case Some(j) =>
        assert surahs[j] in surahs;
        SetCurrent(s, surahs[j], playOk)
  }

  /** `surahs.findIndex(s => s.id === currentSurah.id)`; the current surah is
      in the catalog, so it is found. */
  function CurrentIndex(surahs: seq<Surah>, s: PlayerState): (i: int)
    requires Consistent(surahs, s) && s.currentSurah.Some?
    ensures 0 <= i < |surahs| && surahs[i].id == s.currentSurah.value.id
  {
    var p :| 0 <= p < |surahs| && surahs[p] == s.currentSurah.value;
    FindIndexById(surahs, s.currentSurah.value.id)
  }

  /** The `ended` event: playback stops, progress goes back to 0, and the
      player moves on to the next surah with a recording. */
  function Ended(surahs: seq<Surah>, s: PlayerState, playOk: bool): PlayerState
    requires |surahs| > 0 && Consistent(surahs, s)
  {
    Navigate(surahs, s.(isPlaying := false, progress := 0.0), Forward, playOk)
  }

  /** The `error` event. */
  function Errored(s: PlayerState): PlayerState {
    s.(isPlaying := false)
  }

  /** The `timeupdate` event with the element's `currentTime`. */
  function TimeUpdate(s: PlayerState, currentTime: real): PlayerState {
    s.(progress := currentTime)
  }

  /** The `loadedmetadata` event with the element's `duration`. */
  function LoadedMetadata(s: PlayerState, duration: real): PlayerState {
    s.(duration := duration)
  }

  predicate IsTextField(tagName: string) {
    tagName == "INPUT" || tagName == "TEXTAREA"
  }

  predicate IsPlayerKey(key: string) {
    key == " " || key == "ArrowLeft" || key == "ArrowRight"
  }

  /** The `keydown` listener: the new state, and whether the default action
      was prevented. */
  function KeyDown(surahs: seq<Surah>, s: PlayerState, key: string, tagName: string, playOk: bool): (PlayerState, bool)
    requires |surahs| > 0 && Consistent(surahs, s)
  {
    if IsTextField(tagName) then (s, false)
    else
      var prevented := IsPlayerKey(key);
      if s.currentSurah.None? then (s, prevented)
      else if key == " " then (PlayPause(s, playOk), prevented)
      else if key == "ArrowRight" then (Navigate(surahs, s, Forward, playOk), prevented)
      else if key == "ArrowLeft" then (Navigate(surahs, s, Backward, playOk), prevented)
      else (s, prevented)
  }

  // ---------------------------------------------------------------------------
  // What the transitions promise
  // ---------------------------------------------------------------------------

  /** With no current surah, play/pause, next, previous and every key change
      nothing. */
  lemma NoCurrentNoChange(surahs: seq<Surah>, s: PlayerState, dir: Direction, key: string,
                          tagName: string, playOk: bool)
    requires |surahs| > 0 && s.currentSurah.None?
    ensures PlayPause(s, playOk) == s
    ensures Navigate(surahs, s, dir, playOk) == s
    ensures KeyDown(surahs, s, key, tagName, playOk).0 == s
  {
  }

  /** Every transition keeps the player consistent. */
  lemma TransitionsKeepConsistent(surahs: seq<Surah>, s: PlayerState, surah: Surah, dir: Direction,
                                  key: string, tagName: string, playOk: bool, t: real)
    requires |surahs| > 0 && Consistent(surahs, s) && surah in surahs
    ensures Consistent(surahs, SurahSelect(s, surah, playOk))
    ensures Consistent(surahs, PlayPause(s, playOk))
    ensures Consistent(surahs, Navigate(surahs, s, dir, playOk))
    ensures Consistent(surahs, Ended(surahs, s, playOk))
    ensures Consistent(surahs, Errored(s))
    ensures Consistent(surahs, TimeUpdate(s, t))
    ensures Consistent(surahs, LoadedMetadata(s, t))
    ensures Consistent(surahs, KeyDown(surahs, s, key, tagName, playOk).0)
  {
  }

  /** Under distinct ids, the position found for a catalog entry is its own. */
  lemma FindOwnIndex(surahs: seq<Surah>, p: int)
    requires UniqueIds(surahs) && 0 <= p < |surahs|
    ensures FindIndexById(surahs, surahs[p].id) == p
  {
  }

  /** Next and previous always end on the nearest surah with a recording after
      (before) the current one, going round the list; it is the current one
      only when no other surah has a recording, and then nothing changes. A
      move to another surah loads it, rewinds and starts playback. */
  lemma NavigateMovesToNearest(surahs: seq<Surah>, s: PlayerState, dir: Direction, playOk: bool)
    requires |surahs| > 0 && UniqueIds(surahs) && Consistent(surahs, s) && s.currentSurah.Some?
    ensures var i := CurrentIndex(surahs, s);
            var r := Navigate(surahs, s, dir, playOk);
            && surahs[i] == s.currentSurah.value
            && Target(surahs, i, dir).Some?
            && r.currentSurah == Some(surahs[Target(surahs, i, dir).value])
            && (Target(surahs, i, dir).value == i ==> r == s)
            && (Target(surahs, i, dir).value != i ==>
                  r == s.(currentSurah := r.currentSurah, src := r.currentSurah.value.audioUrl.value,
                           progress := 0.0, isPlaying := playOk))
  {
    var i := CurrentIndex(surahs, s);
    var p :| 0 <= p < |surahs| && surahs[p] == s.currentSurah.value;
    FindOwnIndex(surahs, p);
    TargetIsNearest(surahs, i, dir);
    var j := Target(surahs, i, dir).value;
    if j != i {
      assert surahs[j] != surahs[i] by {
        assert surahs[j].id != surahs[i].id;
      }
    }
  }

  /** Previous undoes next, and next undoes previous: the player comes back to
      the surah it was on. */
  lemma PreviousAfterNext(surahs: seq<Surah>, s: PlayerState, playOk1: bool, playOk2: bool)
    requires |surahs| > 0 && UniqueIds(surahs) && Consistent(surahs, s) && s.currentSurah.Some?
    ensures Navigate(surahs, Navigate(surahs, s, Forward, playOk1), Backward, playOk2).currentSurah
              == s.currentSurah
    ensures Navigate(surahs, Navigate(surahs, s, Backward, playOk1), Forward, playOk2).currentSurah
              == s.currentSurah
  {
    var i := CurrentIndex(surahs, s);
    NavigateMovesToNearest(surahs, s, Forward, playOk1);
    NavigateMovesToNearest(surahs, s, Backward, playOk1);
    var p :| 0 <= p < |surahs| && surahs[p] == s.currentSurah.value;
    FindOwnIndex(surahs, p);
    PreviousUndoesNext(surahs, i);
    NextUndoesPrevious(surahs, i);
    var f := Target(surahs, i, Forward).value;
    var b := Target(surahs, i, Backward).value;
    var s1 := Navigate(surahs, s, Forward, playOk1);
    var s2 := Navigate(surahs, s, Backward, playOk1);
    FindOwnIndex(surahs, f);
    FindOwnIndex(surahs, b);
    NavigateMovesToNearest(surahs, s1, Backward, playOk2);
    NavigateMovesToNearest(surahs, s2, Forward, playOk2);
  }

  /** After `ended` the player is stopped and rewound unless it moved on to
      another surah, which then starts; when the finished surah is the only
      one with a recording it is not replayed. */
  lemma EndedStopsOrMovesOn(surahs: seq<Surah>, s: PlayerState, playOk: bool)
    requires |surahs| > 0 && UniqueIds(surahs) && Consistent(surahs, s)
    ensures var r := Ended(surahs, s, playOk);
            r.currentSurah == s.currentSurah ==> !r.isPlaying && r.progress == 0.0
    ensures var r := Ended(surahs, s, playOk);
            r.currentSurah != s.currentSurah ==> r.isPlaying == playOk && r.progress == 0.0
    ensures s.currentSurah.None? ==> Ended(surahs, s, playOk) == s.(isPlaying := false, progress := 0.0)
    ensures Ended(surahs, s, playOk).duration == s.duration
  {
    var s0 := s.(isPlaying := false, progress := 0.0);
    if s.currentSurah.Some? {
      NavigateMovesToNearest(surahs, s0, Forward, playOk);
    }
  }

  /** Keys typed into a text field are ignored; otherwise the default action
      is prevented exactly for space and the arrow keys, and those keys act
      as play/pause, next and previous. */
  lemma KeyDownCases(surahs: seq<Surah>, s: PlayerState, key: string, tagName: string, playOk: bool)
    requires |surahs| > 0 && Consistent(surahs, s)
    ensures IsTextField(tagName) ==> KeyDown(surahs, s, key, tagName, playOk) == (s, false)
    ensures !IsTextField(tagName) ==>
              && (KeyDown(surahs, s, key, tagName, playOk).1 <==> key in [" ", "ArrowLeft", "ArrowRight"])
              && (key == " " ==> KeyDown(surahs, s, key, tagName, playOk).0 == PlayPause(s, playOk))
              && (key == "ArrowRight" ==> KeyDown(surahs, s, key, tagName, playOk).0 == Navigate(surahs, s, Forward, playOk))
              && (key == "ArrowLeft" ==> KeyDown(surahs, s, key, tagName, playOk).0 == Navigate(surahs, s, Backward, playOk))
              && (!IsPlayerKey(key) ==> KeyDown(surahs, s, key, tagName, playOk).0 == s)
  {
  }

  /** On the real catalog, next from surah 9 skips to surah 112 and next from
      surah 112 wraps to surah 1; previous from surah 1 wraps to surah 112 and
      previous from surah 112 goes back to surah 9. */
  lemma CatalogNavigation(baseUrl: string)
    ensures Target(Catalog(baseUrl), 8, Forward) == Some(111)
    ensures Target(Catalog(baseUrl), 111, Forward) == Some(0)
    ensures Target(Catalog(baseUrl), 0, Backward) == Some(111)
    ensures Target(Catalog(baseUrl), 111, Backward) == Some(8)
  {
    var c := Catalog(baseUrl);
    var n := |c|;
    forall m | 1 <= m < 103
      ensures !HasAudio(c[Along(8, m, n, Forward)])
    {
      ModUnique(8 + m, 0, 8 + m, n);
      HasAudioAt(baseUrl, 8 + m);
    }
    ModUnique(8 + 103, 0, 111, n);
    HasAudioAt(baseUrl, 111);
    ScanFinds(c, 8, Forward, 1, 103);

    ModUnique(111 + 3, 1, 0, n);
    forall m | 1 <= m < 3
      ensures !HasAudio(c[Along(111, m, n, Forward)])
    {
      ModUnique(111 + m, 0, 111 + m, n);
      HasAudioAt(baseUrl, 111 + m);
    }
    HasAudioAt(baseUrl, 0);
    ScanFinds(c, 111, Forward, 1, 3);

    forall m | 1 <= m < 3
      ensures !HasAudio(c[Along(0, m, n, Backward)])
    {
      ModUnique(0 - m, -1, n - m, n);
      HasAudioAt(baseUrl, n - m);
    }
    ModUnique(0 - 3, -1, 111, n);
    ScanFinds(c, 0, Backward, 1, 3);

    forall m | 1 <= m < 103
      ensures !HasAudio(c[Along(111, m, n, Backward)])
    {
      ModUnique(111 - m, 0, 111 - m, n);
      HasAudioAt(baseUrl, 111 - m);
    }
    ModUnique(111 - 103, 0, 8, n);
    HasAudioAt(baseUrl, 8);
    ScanFinds(c, 111, Backward, 1, 103);
  }

  // ---------------------------------------------------------------------------
  // The component
  // ---------------------------------------------------------------------------

  /** `App`: the player's state fields and its handlers. The catalog is the
      module-level `surahs` array. */
  class Player {
    const surahs: seq<Surah>
    var currentSurah: Option<Surah>
    var isPlaying: bool
    var progress: real
    var duration: real
    var src: string

    function State(): PlayerState
      reads this
    {
      PlayerState(currentSurah, isPlaying, progress, duration, src)
    }

    predicate Valid()
      reads this
    {
      |surahs| > 0 && UniqueIds(surahs) && Consistent(surahs, State())
    }

    /** The initial render: nothing selected, stopped, at 0. */
    constructor(baseUrl: string)
      ensures surahs == Catalog(baseUrl) && State() == Initial && Valid()
    {
      surahs := Catalog(baseUrl);
      currentSurah := None;
      isPlaying := false;
      progress := 0.0;
      duration := 0.0;
      src := "";
      CatalogFindIndex(baseUrl, 1);
    }

    /** `setCurrentSurah(surah)` followed by the effect on `currentSurah`. */
    method SetCurrentSurah(surah: Surah, playOk: bool)
      modifies this
      ensures State() == SetCurrent(old(State()), surah, playOk)
    {
      if currentSurah != Some(surah) {
        currentSurah := Some(surah);
        if surah.audioUrl.Some? {
          src := surah.audioUrl.value;
          progress := 0.0;
          isPlaying := playOk;
        }
      }
    }

    /** `handleSurahSelect(surah)`, called with a catalog entry. */
    method HandleSurahSelect(surah: Surah, playOk: bool)
      requires Valid() && surah in surahs
      modifies this
      ensures State() == SurahSelect(old(State()), surah, playOk) && Valid()
    {
      if surah.audioUrl.Some? {
        SetCurrentSurah(surah, playOk);
      }
    }

    /** `handlePlayPause()`. */
    method HandlePlayPause(playOk: bool)
      requires Valid()
      modifies this
      ensures State() == PlayPause(old(State()), playOk) && Valid()
    {
      if currentSurah.None? {
        return;
      }
      if isPlaying {
        isPlaying := false;
      } else {
        isPlaying := playOk;
      }
    }

    /** The shared body of `handleNext`, `handlePrevious`, the `ended` handler
        and the arrow keys: find the current surah's position, search, and
        select what the search found. */
    method MoveTo(dir: Direction, playOk: bool)
      requires Valid()
      modifies this
      ensures State() == Navigate(surahs, old(State()), dir, playOk) && Valid()
    {
      if currentSurah.None? {
        return;
      }
      var currentIndex := FindIndexById(surahs, currentSurah.value.id);
      assert currentIndex == CurrentIndex(surahs, State());
      var found := CyclicSearch(surahs, currentIndex, dir);
      if found.Some? {
        SetCurrentSurah(surahs[found.value], playOk);
      }
    }

    /** `handleNext()`. */
    method HandleNext(playOk: bool)
      requires Valid()
      modifies this
      ensures State() == Navigate(surahs, old(State()), Forward, playOk) && Valid()
    {
      MoveTo(Forward, playOk);
    }

    /** `handlePrevious()`. */
    method HandlePrevious(playOk: bool)
      requires Valid()
      modifies this
      ensures State() == Navigate(surahs, old(State()), Backward, playOk) && Valid()
    {
      MoveTo(Backward, playOk);
    }

    /** The audio element's `ended` listener. */
    method OnEnded(playOk: bool)
      requires Valid()
      modifies this
      ensures State() == Ended(surahs, old(State()), playOk) && Valid()
    {
      isPlaying := false;
      progress := 0.0;
      MoveTo(Forward, playOk);
    }

    /** The audio element's `error` listener. */
    method OnError()
      requires Valid()
      modifies this
      ensures State() == Errored(old(State())) && Valid()
    {
      isPlaying := false;
    }

    /** The audio element's `timeupdate` listener. */
    method OnTimeUpdate(currentTime: real)
      requires Valid()
      modifies this
      ensures State() == TimeUpdate(old(State()), currentTime) && Valid()
    {
      progress := currentTime;
    }

    /** The audio element's `loadedmetadata` listener. */
    method OnLoadedMetadata(elementDuration: real)
      requires Valid()
      modifies this
      ensures State() == LoadedMetadata(old(State()), elementDuration) && Valid()
    {
      duration := elementDuration;
    }

    /** The window's `keydown` listener; `prevented` says whether
        `preventDefault()` was called. */
    method HandleKeyDown(key: string, tagName: string, playOk: bool) returns (prevented: bool)
      requires Valid()
      modifies this
      ensures (State(), prevented) == KeyDown(surahs, old(State()), key, tagName, playOk) && Valid()
    {
      if tagName == "INPUT" || tagName == "TEXTAREA" {
        return false;
      }
      prevented := key in [" ", "ArrowLeft", "ArrowRight"];
      if currentSurah.None? {
        return;
      }
      if key == " " {
        if isPlaying {
          isPlaying := false;
        } else {
          isPlaying := playOk;
        }
      } else if key == "ArrowRight" {
        MoveTo(Forward, playOk);
      } else if key == "ArrowLeft" {
        MoveTo(Backward, playOk);
      }
    }
  }
}
