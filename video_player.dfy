/** The video player's own logic: the time label, the quality list, the reaction to
    fatal stream errors, and the play, seek and quality handlers. The stream library and
    the video element are represented by the fields they expose and by a log of the calls
    the player makes on them. */
module VideoPlayer {
  import opened Basics

  // ---------------------------------------------------------------- formatTime

  /** `Math.trunc` of a real. */
  function Trunc(x: real): int {
    if x >= 0.0 then x.Floor else -((-x).Floor)
  }

  /** JavaScript's `a % b` on numbers: the remainder of truncating division. */
  function JsRem(a: real, b: real): real
    requires b != 0.0
  {
    a - b * Trunc(a / b) as real
  }

  function PadStart2(s: string): (r: string)
    ensures |s| >= 2 ==> r == s
    ensures |s| < 2 ==> |r| == 2 && r[2 - |s|..] == s && forall i :: 0 <= i < 2 - |s| ==> r[i] == '0'
  {
    if |s| >= 2 then s else if |s| == 1 then "0" + s else "00"
  }

  /** `formatTime(s)`: minutes, a colon, and whole seconds padded to two digits. */
  function FormatTime(s: real): string {
    var m := (s / 60.0).Floor;
    var sec := JsRem(s, 60.0).Floor;
    IntString(m) + ":" + PadStart2(IntString(sec))
  }

  lemma FloorShift(x: real, k: int)
    ensures (x - k as real).Floor == x.Floor - k
  {
  }

  /** For a non-negative time the label reads `m:ss`, with `60 * m + ss` the whole number
      of seconds and `ss < 60`. */
  lemma FormatTimeClock(s: real)
    requires s >= 0.0
    ensures var m := (s / 60.0).Floor; var sec := JsRem(s, 60.0).Floor;
      && m >= 0 && 0 <= sec < 60 && 60 * m + sec == s.Floor
      && FormatTime(s) == NatDigits(m) + [':', DigitChar(sec / 10), DigitChar(sec % 10)]
  {
    var m := (s / 60.0).Floor;
    assert m as real <= s / 60.0 < m as real + 1.0;
    assert 60.0 * m as real <= s < 60.0 * m as real + 60.0;
    assert Trunc(s / 60.0) == m;
    var rem := JsRem(s, 60.0);
    assert rem == s - (60 * m) as real;
    FloorShift(s, 60 * m);
    var sec := rem.Floor;
    assert 0 <= sec < 60;
    if sec < 10 {
      assert NatDigits(sec) == [DigitChar(sec)];
      assert sec / 10 == 0 && sec % 10 == sec;
      assert PadStart2(IntString(sec)) == "0" + [DigitChar(sec)];
    } else {
      assert NatDigits(sec / 10) == [DigitChar(sec / 10)];
      assert PadStart2(IntString(sec)) == [DigitChar(sec / 10), DigitChar(sec % 10)];
    }
  }

  /** Reading an `m:ss` label back as a number of seconds: digits, a colon, and
      exactly two digits. */
  function ParseClock(t: string): (r: Option<int>)
    ensures r.Some? ==> r.value >= 0
  {
    if |t| >= 4 then ClockParts(t[..|t| - 3], t[|t| - 3], t[|t| - 2], t[|t| - 1]) else None
  }

  function ClockParts(minutes: string, colon: char, hi: char, lo: char): (r: Option<int>)
    ensures r.Some? ==> r.value >= 0
  {
    if colon == ':' && AllDigits(minutes) && IsDigit(hi) && IsDigit(lo)
    then Some(60 * DigitsValue(minutes) + 10 * DigitValue(hi) + DigitValue(lo))
    else None
  }

  lemma ParseClockOf(t: string, d: string, v: nat, hi: int, lo: int)
    requires |d| >= 1 && AllDigits(d) && DigitsValue(d) == v && 0 <= hi < 10 && 0 <= lo < 10
    requires t == d + [':', DigitChar(hi), DigitChar(lo)]
    ensures ParseClock(t) == Some(60 * v + 10 * hi + lo)
  {
    assert t[..|t| - 3] == d;
    assert t[|t| - 3] == ':' && t[|t| - 2] == DigitChar(hi) && t[|t| - 1] == DigitChar(lo);
  }

  /** The label `m:ss` of whole seconds `60 * m + ss` reads back as that number. */
  lemma ClockRoundTrip(m: nat, sec: int)
    requires 0 <= sec < 60
    ensures ParseClock(NatDigits(m) + [':', DigitChar(sec / 10), DigitChar(sec % 10)]) == Some(60 * m + sec)
  {
    NatDigitsRoundTrip(m);
    NatDigitsShape(m);
    ParseClockOf(NatDigits(m) + [':', DigitChar(sec / 10), DigitChar(sec % 10)], NatDigits(m), m, sec / 10, sec % 10);
  }

  /** The label of a non-negative time reads back as its whole seconds. */
  lemma FormatTimeRoundTrip(s: real)
    requires s >= 0.0
    ensures ParseClock(FormatTime(s)) == Some(s.Floor)
  {
    FormatTimeClock(s);
    var m := (s / 60.0).Floor;
    var sec := JsRem(s, 60.0).Floor;
    ClockRoundTrip(m, sec);
  }

  lemma FormatTimeExamples()
    ensures FormatTime(0.0) == "0:00"
    ensures FormatTime(61.5) == "1:01"
  {
    FormatTimeClock(0.0);
    FormatTimeClock(61.5);
    assert (61.5 / 60.0).Floor == 1;
    assert JsRem(61.5, 60.0).Floor == 1;
  }

  // ---------------------------------------------------------------- qualities

  datatype Quality = Quality(id: int, caption: string)

  /** The entry list built when the manifest is parsed, from the levels' heights:
      the automatic entry, then one entry per level. */
  function QualityList(heights: seq<int>): (q: seq<Quality>)
    ensures |q| == |heights| + 1
    ensures q[0] == Quality(-1, "Auto")
    ensures forall i :: 0 <= i < |heights| ==> q[i + 1] == Quality(i, IntString(heights[i]) + "p")
  {
    [Quality(-1, "Auto")] + seq(|heights|, i requires 0 <= i < |heights| => Quality(i, IntString(heights[i]) + "p"))
  }

  /** `parseInt` on the values the quality selector offers (`q.id.toString()`):
      an optional minus sign and decimal digits. */
  function ParseInt(s: string): Option<int> {
    if |s| >= 2 && s[0] == '-' && AllDigits(s[1..]) then
      var v: int := DigitsValue(s[1..]);
      Some(-v)
    else if |s| >= 1 && AllDigits(s) then Some(DigitsValue(s))
    else None
  }

  lemma ParseIntRoundTrip(n: int)
    ensures ParseInt(IntString(n)) == Some(n)
  {
    if n < 0 {
      ParseNegative(-n);
    } else {
      NatDigitsRoundTrip(n);
      NatDigitsShape(n);
      assert IntString(n) == NatDigits(n);
    }
  }

  lemma ParseNegative(k: nat)
    requires k > 0
    ensures ParseInt("-" + NatDigits(k)) == Some(-(k as int))
  {
    NatDigitsRoundTrip(k);
    NatDigitsShape(k);
    var s := "-" + NatDigits(k);
    assert s[1..] == NatDigits(k);
  }

  /** Every entry's id is distinct, and choosing an entry selects its level: index `i`
      for a level, -1 (automatic) for the first entry. The selector is shown exactly when
      the stream has a level. */
  lemma QualitiesSelectTheirLevel(heights: seq<int>)
    ensures var q := QualityList(heights);
      && (forall i, j :: 0 <= i < j < |q| ==> q[i].id != q[j].id)
      && (forall i :: 0 <= i < |q| ==> ParseInt(IntString(q[i].id)) == Some(i - 1))
      && (|q| > 1 <==> |heights| > 0)
  {
    var q := QualityList(heights);
    forall i | 0 <= i < |q| ensures ParseInt(IntString(q[i].id)) == Some(i - 1) {
      if i > 0 { assert q[i] == q[(i - 1) + 1]; }
      ParseIntRoundTrip(q[i].id);
    }
    forall i | 0 <= i < |q| ensures q[i].id == i - 1 {
      if i > 0 { assert q[i] == q[(i - 1) + 1]; }
    }
  }

  // ---------------------------------------------------------------- player

  /** How a fatal error is classified. */
  datatype ErrorType = NetworkError | MediaError | OtherError

  /** A call the player makes on the stream library or the video element. */
  datatype Call = StartLoad | RecoverMediaError | Destroy | SetLevel(level: int) | PlayVideo | PauseVideo

  const LoadError: string := "Error al cargar el video. Intentá de nuevo."

  /** `initialTime` is applied only when it is positive. */
  function StartTime(current: real, initialTime: real): (t: real)
    ensures initialTime > 0.0 ==> t == initialTime
    ensures initialTime <= 0.0 ==> t == current
  {
    if initialTime > 0.0 then initialTime else current
  }

  /** One mounted player for a source played through the stream library: its React state
      (`playing`, `qualities`, `currentQuality`, `hlsError`), the video element's `paused`
      and `currentTime`, whether `hlsRef` holds an instance, and the calls made so far. */
  class Player {
    var playing: bool
    var qualities: seq<Quality>
    var currentQuality: string
    var hlsError: Option<string>
    var paused: bool
    var currentTime: real
    var hlsAttached: bool
    var calls: seq<Call>

    constructor (hlsSupported: bool)
      ensures !playing && qualities == [] && currentQuality == "-1" && hlsError.None?
      ensures paused && currentTime == 0.0 && hlsAttached == hlsSupported && calls == []
    {
      playing := false;
      qualities := [];
      currentQuality := "-1";
      hlsError := None;
      paused := true;
      currentTime := 0.0;
      hlsAttached := hlsSupported;
      calls := [];
    }

    /** The manifest was parsed: the quality list, and the start position. The native
        playback branch's `loadedmetadata` listener applies the same start rule. */
    method ManifestParsed(heights: seq<int>, initialTime: real)
      modifies this
      ensures qualities == QualityList(heights)
      ensures currentTime == StartTime(old(currentTime), initialTime)
      ensures playing == old(playing) && currentQuality == old(currentQuality) && hlsError == old(hlsError)
      ensures paused == old(paused) && hlsAttached == old(hlsAttached) && calls == old(calls)
    {
      qualities := QualityList(heights);
      if initialTime > 0.0 {
        currentTime := initialTime;
      }
    }

    /** The stream library reported an error. Only fatal ones are handled: a network error
        restarts loading, a media error asks for media recovery, anything else shows the
        load error and destroys the instance (which `hlsRef` still holds). */
    method StreamError(fatal: bool, kind: ErrorType)
      modifies this
      ensures !fatal ==> calls == old(calls) && hlsError == old(hlsError)
      ensures fatal && kind == NetworkError ==> calls == old(calls) + [StartLoad] && hlsError == old(hlsError)
      ensures fatal && kind == MediaError ==> calls == old(calls) + [RecoverMediaError] && hlsError == old(hlsError)
      ensures fatal && kind == OtherError ==> calls == old(calls) + [Destroy] && hlsError == Some(LoadError)
      ensures playing == old(playing) && qualities == old(qualities) && currentQuality == old(currentQuality)
      ensures paused == old(paused) && currentTime == old(currentTime) && hlsAttached == old(hlsAttached)
    {
      if fatal {
        match kind
        case NetworkError => calls := calls + [StartLoad];
        case MediaError => calls := calls + [RecoverMediaError];
        case OtherError =>
          hlsError := Some(LoadError);
          calls := calls + [Destroy];
      }
    }

    /** `togglePlay`: play a paused video, pause a playing one. */
    method TogglePlay()
      modifies this
      ensures old(paused) ==> !paused && playing && calls == old(calls) + [PlayVideo]
      ensures !old(paused) ==> paused && !playing && calls == old(calls) + [PauseVideo]
      ensures qualities == old(qualities) && currentQuality == old(currentQuality) && hlsError == old(hlsError)
      ensures currentTime == old(currentTime) && hlsAttached == old(hlsAttached)
    {
      if paused {
        calls := calls + [PlayVideo];
        paused := false;
        playing := true;
      } else {
        calls := calls + [PauseVideo];
        paused := true;
        playing := false;
      }
    }

    /** `handleSeek(val)`: jump to the slider's first value. Without a value the element
        refuses the assignment and nothing changes. */
    method Seek(val: seq<real>)
      modifies this
      ensures currentTime == if |val| > 0 then val[0] else old(currentTime)
      ensures playing == old(playing) && qualities == old(qualities) && currentQuality == old(currentQuality)
      ensures hlsError == old(hlsError) && paused == old(paused) && hlsAttached == old(hlsAttached) && calls == old(calls)
    {
      if |val| > 0 {
        currentTime := val[0];
      }
    }

    /** `handleQualityChange(val)`: remember the choice, and set the level when an instance
        is held. */
    method QualityChange(val: string)
      modifies this
      ensures currentQuality == val
      ensures hlsAttached && ParseInt(val).Some? ==> calls == old(calls) + [SetLevel(ParseInt(val).value)]
      ensures !(hlsAttached && ParseInt(val).Some?) ==> calls == old(calls)
      ensures playing == old(playing) && qualities == old(qualities) && hlsError == old(hlsError)
      ensures paused == old(paused) && currentTime == old(currentTime) && hlsAttached == old(hlsAttached)
    {
      currentQuality := val;
      var level := ParseInt(val);
      if hlsAttached && level.Some? {
        calls := calls + [SetLevel(level.value)];
      }
    }
  }

  /** After the manifest, choosing the `i`-th offered entry sets level `i - 1`. */
  method ChooseOfferedQuality(p: Player, heights: seq<int>, i: int)
    requires p.hlsAttached && 0 <= i <= |heights|
    modifies p
    ensures p.qualities == QualityList(heights)
    ensures p.calls == old(p.calls) + [SetLevel(i - 1)]
  {
    p.ManifestParsed(heights, 0.0);
    QualitiesSelectTheirLevel(heights);
    p.QualityChange(IntString(p.qualities[i].id));
  }
}
