/**
 * The string rules of the audio and video parser: `_fmt_time`, the plain and
 * speaker-labelled transcripts, and the `full_text` join. Transcription and
 * diarization themselves are inputs: the Whisper segments and the pyannote
 * speaker turns arrive as sequences, with their times as real numbers.
 */
module Media {
  import opened Options
  import opened Text
  import opened Schemas

  /** A transcribed segment: start and end in seconds, and its text. */
  datatype Segment = Segment(start: real, end: real, text: string)

  /** A diarization turn: the closed interval in seconds during which `speaker` talks. */
  datatype Turn = Turn(start: real, end: real, speaker: string)

  // ---------------------------------------------------------------------------
  // `_fmt_time`
  // ---------------------------------------------------------------------------

  /** Python's `int(x)` on a float: truncation toward zero. */
  function Trunc(x: real): (n: int)
    ensures x >= 0.0 ==> n >= 0 && n as real <= x < n as real + 1.0
    ensures x < 0.0 ==> n <= 0 && n as real - 1.0 < x <= n as real
  {
    if x >= 0.0 then x.Floor else -((-x).Floor)
  }

  /**
   * The two `divmod` steps: hours, minutes and seconds of `n` seconds.
   * Python's `divmod` by 60 floors, as Dafny's division by a positive number
   * does, so minutes and seconds are always in [0, 60).
   */
  function Hms(n: int): (r: (int, int, int))
    ensures 0 <= r.1 < 60 && 0 <= r.2 < 60
    ensures r.0 * 3600 + r.1 * 60 + r.2 == n
    ensures n >= 0 ==> r.0 >= 0
  {
    var m := n / 60;
    (m / 60, m % 60, n % 60)
  }

  predicate IsDigit(c: char) {
    '0' <= c <= '9'
  }

  predicate AllDigits(s: string) {
    forall i :: 0 <= i < |s| ==> IsDigit(s[i])
  }

  function DigitChar(d: int): (c: char)
    requires 0 <= d < 10
    ensures IsDigit(c)
  {
    ('0' as int + d) as char
  }

  /** The decimal digits of `n`, without leading zeros. */
  function Digits(n: nat): (s: string)
    ensures |s| >= 1 && AllDigits(s)
    ensures n < 10 <==> |s| == 1
  {
    if n < 10 then [DigitChar(n)] else Digits(n / 10) + [DigitChar(n % 10)]
  }

  /** The number a string of decimal digits denotes (leading zeros allowed). */
  function ValueOf(s: string): nat
    requires AllDigits(s)
  {
    if s == [] then 0 else ValueOf(s[..|s| - 1]) * 10 + (s[|s| - 1] as int - '0' as int)
  }

  /** Reading back the digits of `n` gives `n`. */
  lemma {:induction false} DigitsValue(n: nat)
    ensures ValueOf(Digits(n)) == n
  {
    if n >= 10 {
      DigitsValue(n / 10);
      var s := Digits(n);
      assert s[..|s| - 1] == Digits(n / 10);
    }
  }

  /** A leading zero does not change the value. */
  lemma {:induction false} LeadingZeroValue(s: string)
    requires AllDigits(s)
    ensures AllDigits("0" + s) && ValueOf("0" + s) == ValueOf(s)
  {
    if s != [] {
      var t := "0" + s;
      assert t[..|t| - 1] == "0" + s[..|s| - 1];
      LeadingZeroValue(s[..|s| - 1]);
    }
  }

  /**
   * `format(n, "02d")`: the decimal digits of `n`, with a zero in front when
   * there is only one; a negative number is its sign and digits, already two
   * characters wide.
   */
  function Pad2(n: int): (r: string)
    ensures n >= 0 ==> AllDigits(r) && |r| >= 2
    ensures 0 <= n < 100 ==> |r| == 2
    ensures n < 0 ==> |r| >= 2 && r[0] == '-'
  {
    if n < 0 then "-" + Digits(-n)
    else if n < 10 then "0" + Digits(n)
    else Digits(n)
  }

  /** A padded non-negative number reads back as itself. */
  lemma Pad2Value(n: nat)
    ensures ValueOf(Pad2(n)) == n
  {
    DigitsValue(n);
    if n < 10 {
      LeadingZeroValue(Digits(n));
    }
  }

  /** `_fmt_time(seconds)`: `HH:MM:SS` of the whole seconds. */
  function FmtTime(seconds: real): string {
    var hms := Hms(Trunc(seconds));
    Pad2(hms.0) + ":" + Pad2(hms.1) + ":" + Pad2(hms.2)
  }

  /** Reads `H:MM:SS`-style text back into seconds: three colon-separated digit fields. */
  function ParseClock(t: string): Option<int> {
    ClockFields(Split(t, ':'))
  }

  /** The seconds that three digit fields denote, hours first. */
  function ClockFields(fields: seq<string>): Option<int> {
    if |fields| == 3 && AllDigits(fields[0]) && AllDigits(fields[1]) && AllDigits(fields[2]) then
      Some(ValueOf(fields[0]) * 3600 + ValueOf(fields[1]) * 60 + ValueOf(fields[2]))
    else None
  }

  /** Three digit fields denote hours, minutes and seconds. */
  lemma ClockFieldsValue(a: string, b: string, c: string)
    requires AllDigits(a) && AllDigits(b) && AllDigits(c)
    ensures ClockFields([a, b, c]) == Some(ValueOf(a) * 3600 + ValueOf(b) * 60 + ValueOf(c))
  {
    var fields := [a, b, c];
    assert fields[0] == a && fields[1] == b && fields[2] == c;
  }

  /** Splitting three colon-free fields joined by colons gives the fields back. */
  lemma SplitClock(a: string, b: string, c: string)
    requires ':' !in a && ':' !in b && ':' !in c
    ensures Split(a + ":" + b + ":" + c, ':') == [a, b, c]
  {
    var fields := [a, b, c];
    assert Join(fields, ":") == a + ":" + b + ":" + c by {
      assert fields[1..] == [b, c];
      assert [b, c][1..] == [c];
      assert Join([b, c], ":") == b + ":" + c;
      assert Join(fields, ":") == a + ":" + (b + ":" + c);
    }
    SplitJoin(fields, ':');
  }

  /** Three digit fields joined by colons read back as hours, minutes and seconds. */
  lemma ParseFields(a: string, b: string, c: string)
    requires AllDigits(a) && AllDigits(b) && AllDigits(c)
    ensures ParseClock(a + ":" + b + ":" + c) == Some(ValueOf(a) * 3600 + ValueOf(b) * 60 + ValueOf(c))
  {
    assert ':' !in a && ':' !in b && ':' !in c by {
      assert !IsDigit(':');
    }
    SplitClock(a, b, c);
    ClockFieldsValue(a, b, c);
  }

  /**
   * For a non-negative time, `_fmt_time` writes minutes and seconds as exactly
   * two digits and hours as at least two, and reading the fields back gives
   * the whole seconds: nothing is lost but the fraction.
   */
  lemma FmtTimeRoundTrip(seconds: real)
    requires seconds >= 0.0
    ensures var hms := Hms(Trunc(seconds));
      |Pad2(hms.0)| >= 2 && |Pad2(hms.1)| == 2 && |Pad2(hms.2)| == 2
    ensures ParseClock(FmtTime(seconds)) == Some(Trunc(seconds))
  {
    var hms := Hms(Trunc(seconds));
    ParseFields(Pad2(hms.0), Pad2(hms.1), Pad2(hms.2));
    Pad2Value(hms.0);
    Pad2Value(hms.1);
    Pad2Value(hms.2);
  }

  // ---------------------------------------------------------------------------
  // Transcripts
  // ---------------------------------------------------------------------------

  /** The `[start → end] ` prefix of a transcript line. */
  function Stamp(seg: Segment): string {
    "[" + FmtTime(seg.start) + " → " + FmtTime(seg.end) + "] "
  }

  /** One line of `_plain_transcript`. */
  function PlainLine(seg: Segment): string {
    Stamp(seg) + Strip(seg.text)
  }

  /** `_plain_transcript(segments)`: the lines joined by newlines. */
  function PlainTranscript(segs: seq<Segment>): string {
    Join(Map(PlainLine, segs), "\n")
  }

  /** The loop of `_plain_transcript`. */
  method BuildPlainTranscript(segs: seq<Segment>) returns (transcript: string)
    ensures transcript == PlainTranscript(segs)
  {
    var lines: seq<string> := [];
    for i := 0 to |segs|
      invariant lines == Map(PlainLine, segs[..i])
    {
      assert segs[..i + 1][..i] == segs[..i];
      lines := lines + [PlainLine(segs[i])];
    }
    assert segs[..|segs|] == segs;
    transcript := Join(lines, "\n");
  }

  /** A string has no newline when each of its parts has none. */
  lemma {:induction false} NoNewlineInStrip(s: string)
    requires '\n' !in s
    ensures '\n' !in Strip(s)
  {
    StripInfix(s);
  }

  lemma NoNewlineInStamp(seg: Segment)
    ensures '\n' !in Stamp(seg)
  {
    var a := FmtTime(seg.start);
    var b := FmtTime(seg.end);
    NoNewlineInClock(seg.start);
    NoNewlineInClock(seg.end);
    NoNewlineConcat("[", a);
    NoNewlineConcat("[" + a, " → ");
    NoNewlineConcat("[" + a + " → ", b);
    NoNewlineConcat("[" + a + " → " + b, "] ");
  }

  lemma NoNewlineConcat(s: string, t: string)
    requires '\n' !in s && '\n' !in t
    ensures '\n' !in s + t
  {
    forall i | 0 <= i < |s + t|
      ensures (s + t)[i] != '\n'
    {
      if i < |s| {
        assert (s + t)[i] == s[i];
      } else {
        assert (s + t)[i] == t[i - |s|];
      }
    }
  }

  lemma NoNewlineInClock(x: real)
    ensures '\n' !in FmtTime(x)
  {
    var hms := Hms(Trunc(x));
    assert forall n: int :: '\n' !in Pad2(n) by {
      forall n: int
        ensures '\n' !in Pad2(n)
      {
        if n < 0 {
          assert AllDigits(Digits(-n));
        } else {
          assert AllDigits(Pad2(n));
        }
      }
    }
  }

  /**
   * Without newlines inside the segment texts, the plain transcript splits
   * back into exactly one line per segment, in order; no segments give "".
   */
  lemma PlainTranscriptLines(segs: seq<Segment>)
    requires forall i :: 0 <= i < |segs| ==> '\n' !in segs[i].text
    ensures segs == [] ==> PlainTranscript(segs) == ""
    ensures segs != [] ==>
      var lines := Split(PlainTranscript(segs), '\n');
      |lines| == |segs| && forall k :: 0 <= k < |segs| ==> lines[k] == PlainLine(segs[k])
  {
    var lines := Map(PlainLine, segs);
    forall k | 0 <= k < |lines|
      ensures '\n' !in lines[k]
    {
      NoNewlineInStamp(segs[k]);
      NoNewlineInStrip(segs[k].text);
    }
    if segs != [] {
      SplitJoin(lines, '\n');
    }
  }

  /** The midpoint of a segment, where its speaker is looked up. */
  function Mid(seg: Segment): real {
    (seg.start + seg.end) / 2.0
  }

  predicate Covers(turn: Turn, t: real) {
    turn.start <= t <= turn.end
  }

  /** The first turn whose closed interval contains `t`. */
  function FirstCovering(turns: seq<Turn>, t: real): (r: Option<nat>)
    ensures r.Some? ==> r.value < |turns| && Covers(turns[r.value], t)
    ensures r.Some? ==> forall j :: 0 <= j < r.value ==> !Covers(turns[j], t)
    ensures r.None? <==> forall j :: 0 <= j < |turns| ==> !Covers(turns[j], t)
  {
    if turns == [] then None
    else if Covers(turns[0], t) then Some(0)
    else
      var r := FirstCovering(turns[1..], t);
      assert forall j :: 1 <= j < |turns| ==> turns[j] == turns[1..][j - 1];
      if r.Some? then Some(r.value + 1) else None
  }

  /** The speaker of a segment: that of the first turn covering its midpoint, or "UNKNOWN". */
  function SpeakerAt(turns: seq<Turn>, t: real): string {
    match FirstCovering(turns, t)
    case Some(k) => turns[k].speaker
    case None => "UNKNOWN"
  }

  /** The inner search of `_diarize_transcript`, with its `break`. */
  method FindSpeaker(turns: seq<Turn>, t: real) returns (speaker: string)
    ensures speaker == SpeakerAt(turns, t)
  {
    speaker := "UNKNOWN";
    for k := 0 to |turns|
      invariant forall j :: 0 <= j < k ==> !Covers(turns[j], t)
    {
      if Covers(turns[k], t) {
        speaker := turns[k].speaker;
        assert FirstCovering(turns, t) == Some(k);
        return;
      }
    }
  }

  /** One line of `_diarize_transcript`. */
  function DiarizedLine(seg: Segment, speaker: string): string {
    Stamp(seg) + "**" + speaker + "**: " + Strip(seg.text)
  }

  /** The line `_diarize_transcript` writes for one segment, given the turns. */
  function SpeakerLine(turns: seq<Turn>, seg: Segment): string {
    DiarizedLine(seg, SpeakerAt(turns, Mid(seg)))
  }

  /** The lines of `_diarize_transcript`, one per segment. */
  function DiarizedLines(segs: seq<Segment>, turns: seq<Turn>): (lines: seq<string>)
    ensures |lines| == |segs|
    ensures forall k :: 0 <= k < |segs| ==> lines[k] == SpeakerLine(turns, segs[k])
  {
    Map(seg => SpeakerLine(turns, seg), segs)
  }

  lemma DiarizedLinesSnoc(segs: seq<Segment>, i: nat, turns: seq<Turn>)
    requires i < |segs|
    ensures DiarizedLines(segs[..i + 1], turns) == DiarizedLines(segs[..i], turns) + [SpeakerLine(turns, segs[i])]
  {
    assert segs[..i + 1] == segs[..i] + [segs[i]];
    MapSnoc(seg => SpeakerLine(turns, seg), segs[..i], segs[i]);
  }

  /** `_diarize_transcript(segments)` given the diarization turns. */
  function DiarizedTranscript(segs: seq<Segment>, turns: seq<Turn>): string {
    Join(DiarizedLines(segs, turns), "\n")
  }

  /** The outer loop of `_diarize_transcript`. */
  method BuildDiarizedTranscript(segs: seq<Segment>, turns: seq<Turn>) returns (transcript: string)
    ensures transcript == DiarizedTranscript(segs, turns)
  {
    var lines: seq<string> := [];
    for i := 0 to |segs|
      invariant lines == DiarizedLines(segs[..i], turns)
    {
      var speaker := FindSpeaker(turns, Mid(segs[i]));
      DiarizedLinesSnoc(segs, i, turns);
      lines := lines + [DiarizedLine(segs[i], speaker)];
    }
    assert segs[..|segs|] == segs;
    transcript := Join(lines, "\n");
  }

  /**
   * The speaker rule: a segment gets the label of a turn exactly when that
   * turn covers its midpoint and no earlier turn does, and "UNKNOWN" exactly
   * when no turn covers it.
   */
  lemma SpeakerRule(turns: seq<Turn>, t: real)
    ensures (forall j :: 0 <= j < |turns| ==> !Covers(turns[j], t)) ==> SpeakerAt(turns, t) == "UNKNOWN"
    ensures forall k :: 0 <= k < |turns| && Covers(turns[k], t) && (forall j :: 0 <= j < k ==> !Covers(turns[j], t)) ==>
      SpeakerAt(turns, t) == turns[k].speaker
  {
    forall k | 0 <= k < |turns| && Covers(turns[k], t) && (forall j :: 0 <= j < k ==> !Covers(turns[j], t))
      ensures SpeakerAt(turns, t) == turns[k].speaker
    {
      var r := FirstCovering(turns, t);
      assert r.Some?;
      assert r.value == k;
    }
  }

  lemma NoNewlineInSpeakerLine(turns: seq<Turn>, seg: Segment)
    requires '\n' !in seg.text
    requires forall j :: 0 <= j < |turns| ==> '\n' !in turns[j].speaker
    ensures '\n' !in SpeakerLine(turns, seg)
  {
    var r := FirstCovering(turns, Mid(seg));
    if r.Some? {
      assert '\n' !in turns[r.value].speaker;
    }
    NoNewlineInDiarizedLine(seg, SpeakerAt(turns, Mid(seg)));
  }

  lemma NoNewlineInDiarizedLine(seg: Segment, speaker: string)
    requires '\n' !in seg.text && '\n' !in speaker
    ensures '\n' !in DiarizedLine(seg, speaker)
  {
    var stamp := Stamp(seg);
    var text := Strip(seg.text);
    NoNewlineInStamp(seg);
    NoNewlineInStrip(seg.text);
    assert DiarizedLine(seg, speaker) == stamp + "**" + speaker + "**: " + text;
  }

  /**
   * Without newlines inside the segment texts and the speaker labels, the
   * diarized transcript splits back into one line per segment, each carrying
   * the speaker of the segment's midpoint.
   */
  lemma DiarizedTranscriptLines(segs: seq<Segment>, turns: seq<Turn>)
    requires forall i :: 0 <= i < |segs| ==> '\n' !in segs[i].text
    requires forall j :: 0 <= j < |turns| ==> '\n' !in turns[j].speaker
    ensures segs == [] ==> DiarizedTranscript(segs, turns) == ""
    ensures segs != [] ==>
      var lines := Split(DiarizedTranscript(segs, turns), '\n');
      |lines| == |segs| &&
      forall k :: 0 <= k < |segs| ==> lines[k] == DiarizedLine(segs[k], SpeakerAt(turns, Mid(segs[k])))
  {
    var lines := DiarizedLines(segs, turns);
    forall k | 0 <= k < |lines|
      ensures '\n' !in lines[k]
    {
      NoNewlineInSpeakerLine(turns, segs[k]);
    }
    if segs != [] {
      SplitJoin(lines, '\n');
    }
  }

  /** The stripped texts of the segments, in order. */
  function StrippedTexts(segs: seq<Segment>): (r: seq<string>)
    ensures |r| == |segs|
  {
    if segs == [] then [] else StrippedTexts(segs[..|segs| - 1]) + [Strip(segs[|segs| - 1].text)]
  }

  /** `full_text`: the stripped segment texts joined by single spaces. */
  function FullText(segs: seq<Segment>): string {
    Join(StrippedTexts(segs), " ")
  }

  /** `full_text` grows by one space and the next stripped text per segment. */
  lemma FullTextSnoc(segs: seq<Segment>, seg: Segment)
    ensures segs == [] ==> FullText(segs + [seg]) == Strip(seg.text)
    ensures segs != [] ==> FullText(segs + [seg]) == FullText(segs) + " " + Strip(seg.text)
  {
    assert (segs + [seg])[..|segs|] == segs;
    assert StrippedTexts(segs + [seg]) == StrippedTexts(segs) + [Strip(seg.text)];
    if segs != [] {
      JoinSnoc(StrippedTexts(segs), Strip(seg.text), " ");
    }
  }

  /**
   * The response `_transcribe` builds, less the float metadata and `raw`:
   * the diarized transcript only when diarization was asked for and a
   * diarizer is loaded (`turns` is None when it is not), the segment count,
   * and whether the transcript was diarized.
   */
  function TranscriptResponse(filename: string, segs: seq<Segment>, diarize: bool, turns: Option<seq<Turn>>): (r: ParseResponse)
    ensures r.source == filename && r.contentType == "audio" && r.chunks == []
    ensures "num_segments" in r.metadata && r.metadata["num_segments"] == IntValue(|segs|)
    ensures "diarized" in r.metadata && r.metadata["diarized"] == FlagValue(diarize && turns.Some?)
    ensures r.markdown == Some(if diarize && turns.Some? then DiarizedTranscript(segs, turns.value) else PlainTranscript(segs))
  {
    var transcript := if diarize && turns.Some? then DiarizedTranscript(segs, turns.value) else PlainTranscript(segs);
    ParseResponse(filename, "audio", Some(transcript), [],
      map["num_segments" := IntValue(|segs|), "diarized" := FlagValue(diarize && turns.Some?)])
  }

  /**
   * The response and its metadata agree: with no newline in the segment
   * texts and the speaker labels, the markdown splits into exactly
   * `num_segments` lines, the k-th being segment k's line, labelled with the
   * speaker of its midpoint exactly when the response says it is diarized.
   */
  lemma TranscriptResponseLines(filename: string, segs: seq<Segment>, diarize: bool, turns: Option<seq<Turn>>)
    requires forall i :: 0 <= i < |segs| ==> '\n' !in segs[i].text
    requires turns.Some? ==> forall j :: 0 <= j < |turns.value| ==> '\n' !in turns.value[j].speaker
    ensures var r := TranscriptResponse(filename, segs, diarize, turns);
      r.markdown.Some? && (segs == [] ==> r.markdown.value == "")
    ensures var r := TranscriptResponse(filename, segs, diarize, turns);
      segs != [] ==>
        var lines := Split(r.markdown.value, '\n');
        && r.metadata["num_segments"] == IntValue(|lines|)
        && (r.metadata["diarized"] == FlagValue(true) ==>
              turns.Some? && forall k :: 0 <= k < |segs| ==> lines[k] == DiarizedLine(segs[k], SpeakerAt(turns.value, Mid(segs[k]))))
        && (r.metadata["diarized"] == FlagValue(false) ==>
              forall k :: 0 <= k < |segs| ==> lines[k] == PlainLine(segs[k]))
  {
    if diarize && turns.Some? {
      DiarizedTranscriptLines(segs, turns.value);
    } else {
      PlainTranscriptLines(segs);
    }
  }
}
