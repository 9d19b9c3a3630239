/** The transcript-to-chat parser `display_chat`: a generated transcript is
    cut into lines, each stripped line either opens a speaker turn (a
    bold speaker name followed by the turn's text), continues the current
    speaker's turn, or is dropped. The Streamlit container the source
    writes into is modelled as the sequence of items written to it. */
module Transcript {
  import opened Text

  /** One `container.markdown(...)` call: the bold speaker name
      (`**name**`), the text of the turn that follows it, or a whole
      continuation line. */
  datatype Item = Header(name: string) | Body(text: string) | Cont(line: string)

  /** `current_speaker`: `None` until the first turn, then the display
      name of the latest turn (which may be the empty string). */
  datatype Speaker = NoSpeaker | Named(name: string)

  /** Python truthiness of `current_speaker`: `None` and `""` are false. */
  predicate Truthy(cur: Speaker)
  {
    cur.Named? && cur.name != ""
  }

  const PresidingJudge: string := "Presiding Judge"
  const PetitionerCounsel: string := "Petitioner Counsel"
  const RespondentCounsel: string := "Respondent Counsel"

  /** One of the five role keywords occurs anywhere in the line. */
  predicate HasRoleKeyword(line: string)
  {
    || Contains(line, "Judge")
    || Contains(line, "Counsel")
    || Contains(line, "Petitioner")
    || Contains(line, "Respondent")
    || Contains(line, "Juror")
  }

  /** A stripped line opens a new turn when it holds a colon and a role
      keyword, wherever in the line either of them is. */
  predicate OpensTurn(line: string)
  {
    ':' in line && HasRoleKeyword(line)
  }

  /** The display name chosen for a raw speaker label. */
  function Canon(speaker: string): string
  {
    if Contains(speaker, "Judge") then PresidingJudge
    else if Contains(speaker, "Petitioner") || Contains(speaker, "Appellant") then PetitionerCounsel
    else if Contains(speaker, "Respondent") || Contains(speaker, "Defense") then RespondentCounsel
    else if Contains(speaker, "Juror") then Strip(speaker)
    else speaker
  }

  /** The display name and the text of a turn line. */
  function TurnOf(line: string): (string, string)
    requires ':' in line
  {
    var (speaker, text) := SplitFirst(line, ':');
    (Canon(Strip(speaker)), Strip(text))
  }

  /** What a raw line is once stripped: blank, the opening of a turn
      (with its display name and text), or any other line. */
  datatype Line = Blank | Turn(name: string, text: string) | Plain(line: string)

  function Classify(raw: string): Line
  {
    var line := Strip(raw);
    if line == "" then Blank
    else if OpensTurn(line) then
      var (name, text) := TurnOf(line);
      Turn(name, text)
    else Plain(line)
  }

  /** The classified lines of a transcript, in order. */
  function Classified(lines: seq<string>): (ls: seq<Line>)
    ensures |ls| == |lines|
  {
    if lines == [] then [] else [Classify(lines[0])] + Classified(lines[1..])
  }

  lemma {:induction false} ClassifiedAt(lines: seq<string>, k: nat)
    requires k < |lines|
    ensures Classified(lines)[k] == Classify(lines[k])
  {
    if k > 0 {
      ClassifiedAt(lines[1..], k - 1);
    }
  }

  /** One transition of the two-state machine: the items a line writes to
      the container, and `current_speaker` after it. */
  function Step(cur: Speaker, l: Line): (Speaker, seq<Item>)
  {
    match l
    case Blank => (cur, [])
    case Turn(name, text) => (Named(name), [Header(name), Body(text)])
    case Plain(line) => if Truthy(cur) then (cur, [Cont(line)]) else (cur, [])
  }

  /** The items written for `ls`, starting with speaker `cur`. */
  function ParseFrom(cur: Speaker, ls: seq<Line>): seq<Item>
    decreases |ls|
  {
    if ls == [] then []
    else
      var (next, out) := Step(cur, ls[0]);
      out + ParseFrom(next, ls[1..])
  }

  /** The speaker after `ls`, starting with speaker `cur`. */
  function SpeakerAfter(cur: Speaker, ls: seq<Line>): Speaker
    decreases |ls|
  {
    if ls == [] then cur else SpeakerAfter(Step(cur, ls[0]).0, ls[1..])
  }

  /** Everything `display_chat(transcript, container)` writes. */
  function Parse(transcript: string): seq<Item>
  {
    ParseFrom(NoSpeaker, Classified(Split(transcript, '\n')))
  }

  /** `display_chat`: the `for` loop over the lines with `current_speaker`
      as its state, appending to the container as it goes. */
  method DisplayChat(transcript: string) returns (container: seq<Item>)
    ensures container == Parse(transcript)
  {
    var lines := Split(transcript, '\n');
    ghost var ls := Classified(lines);
    var current := NoSpeaker;
    container := [];
    for i := 0 to |lines|
      invariant container == ParseFrom(NoSpeaker, ls[..i])
      invariant current == SpeakerAfter(NoSpeaker, ls[..i])
    {
      ParseNext(ls, i);
      ClassifiedAt(lines, i);
      var line := Strip(lines[i]);
      if line == "" {
        assert Classify(lines[i]) == Blank;
        continue;
      }
      if OpensTurn(line) {
        var (displayName, text) := TurnOf(line);
        assert Classify(lines[i]) == Turn(displayName, text);
        container := container + [Header(displayName)];
        container := container + [Body(text)];
        current := Named(displayName);
      } else if Truthy(current) {
        assert Classify(lines[i]) == Plain(line);
        container := container + [Cont(line)];
      } else {
        assert Classify(lines[i]) == Plain(line);
      }
    }
    assert ls[..|lines|] == ls;
  }

  /** The loop's step: the prefix of `i + 1` lines is the prefix of `i`
      lines followed by line `i`. */
  lemma ParseNext(ls: seq<Line>, i: nat)
    requires i < |ls|
    ensures ParseFrom(NoSpeaker, ls[..i + 1]) == ParseFrom(NoSpeaker, ls[..i]) + Step(SpeakerAfter(NoSpeaker, ls[..i]), ls[i]).1
    ensures SpeakerAfter(NoSpeaker, ls[..i + 1]) == Step(SpeakerAfter(NoSpeaker, ls[..i]), ls[i]).0
  {
    ParseSnoc(NoSpeaker, ls[..i], ls[i]);
    assert ls[..i + 1] == ls[..i] + [ls[i]];
  }

  /** Processing one more line appends that line's items: the container
      grows in line order and earlier items are never revised. */
  lemma ParseSnoc(cur: Speaker, ls: seq<Line>, l: Line)
    ensures ParseFrom(cur, ls + [l]) == ParseFrom(cur, ls) + Step(SpeakerAfter(cur, ls), l).1
    ensures SpeakerAfter(cur, ls + [l]) == Step(SpeakerAfter(cur, ls), l).0
  {
    ParseAppend(cur, ls, [l]);
    SpeakerAppend(cur, ls, [l]);
    assert [l][1..] == [];
  }

  // ---------------------------------------------------------------------
  // Display names

  /** The three fixed display names hold no colon and no surrounding
      whitespace. */
  lemma DisplayNamesClean()
    ensures ':' !in PresidingJudge && ':' !in PetitionerCounsel && ':' !in RespondentCounsel
    ensures Strip(PresidingJudge) == PresidingJudge
    ensures Strip(PetitionerCounsel) == PetitionerCounsel
    ensures Strip(RespondentCounsel) == RespondentCounsel
  {
    NameClean(PresidingJudge);
    NameClean(PetitionerCounsel);
    NameClean(RespondentCounsel);
  }

  /** A non-empty name that starts and ends with a non-space character is
      already stripped. */
  lemma NameClean(name: string)
    requires name != [] && !IsSpace(name[0]) && !IsSpace(name[|name| - 1])
    ensures Strip(name) == name
  {
  }

  /** Each fixed display name is its own display name. */
  lemma JudgeNameFixed()
    ensures Canon(PresidingJudge) == PresidingJudge
  {
    OccursContains(PresidingJudge, "Judge", 10);
  }

  lemma PetitionerNameFixed()
    ensures Canon(PetitionerCounsel) == PetitionerCounsel
  {
    MissingCharNotContained(PetitionerCounsel, "Judge", 'J');
    OccursContains(PetitionerCounsel, "Petitioner", 0);
  }

  /** A label that starts with "Respondent" and has no 'J', 'P' or 'A'
      is shown as the respondent's counsel. */
  lemma RespondentLike(speaker: string)
    requires StartsWith(speaker, "Respondent")
    requires 'J' !in speaker && 'P' !in speaker && 'A' !in speaker
    ensures Canon(speaker) == RespondentCounsel
  {
    MissingCharNotContained(speaker, "Judge", 'J');
    MissingCharNotContained(speaker, "Petitioner", 'P');
    MissingCharNotContained(speaker, "Appellant", 'A');
  }

  /** The role names of the three juror agents are shown as they are
      written. */
  lemma JurorOneFixed()
    ensures Canon("Juror #1 (Analytical)") == "Juror #1 (Analytical)"
  {
    var role := "Juror #1 (Analytical)";
    JurorOneFree(role);
    JurorNameFixed(role, 'e', 'e');
  }

  lemma JurorOneFree(role: string)
    requires role == "Juror #1 (Analytical)"
    ensures 'e' !in role && Strip(role) == role
  {
  }

  lemma JurorTwoFixed()
    ensures Canon("Juror #2 (Equitable)") == "Juror #2 (Equitable)"
  {
    var role := "Juror #2 (Equitable)";
    JurorTwoFree(role);
    JurorNameFixed(role, 'd', 'n');
  }

  lemma JurorTwoFree(role: string)
    requires role == "Juror #2 (Equitable)"
    ensures 'd' !in role && 'n' !in role && Strip(role) == role
  {
  }

  lemma JurorThreeFixed()
    ensures Canon("Juror #3 (Skeptical)") == "Juror #3 (Skeptical)"
  {
    var role := "Juror #3 (Skeptical)";
    JurorThreeFree(role);
    JurorNameFixed(role, 'd', 'n');
  }

  lemma JurorThreeFree(role: string)
    requires role == "Juror #3 (Skeptical)"
    ensures 'd' !in role && 'n' !in role && Strip(role) == role
  {
  }

  /** A stripped label that starts with "Juror" and lacks two characters
      `a` and `b` such that each of "Judge", "Petitioner", "Appellant",
      "Respondent" and "Defense" holds one of them is shown unchanged. */
  lemma JurorNameFixed(speaker: string, a: char, b: char)
    requires StartsWith(speaker, "Juror") && Strip(speaker) == speaker
    requires a !in speaker && b !in speaker
    requires forall w :: w in ["Judge", "Petitioner", "Appellant", "Respondent", "Defense"] ==> a in w || b in w
    ensures Canon(speaker) == speaker
  {
    assert !Contains(speaker, "Judge") && !Contains(speaker, "Petitioner") && !Contains(speaker, "Appellant")
      && !Contains(speaker, "Respondent") && !Contains(speaker, "Defense") by {
      forall w | w in ["Judge", "Petitioner", "Appellant", "Respondent", "Defense"] ensures !Contains(speaker, w) {
        if a in w {
          MissingCharNotContained(speaker, w, a);
        } else {
          MissingCharNotContained(speaker, w, b);
        }
      }
    }
  }

  /** Choosing the display name twice changes nothing. */
  lemma CanonIdempotent(speaker: string)
    ensures Canon(Canon(speaker)) == Canon(speaker)
  {
    if Contains(speaker, "Judge") {
      JudgeNameFixed();
    } else if Contains(speaker, "Petitioner") || Contains(speaker, "Appellant") {
      PetitionerNameFixed();
    } else if Contains(speaker, "Respondent") || Contains(speaker, "Defense") {
      RespondentLike(RespondentCounsel);
    } else if Contains(speaker, "Juror") {
      JurorIdempotent(speaker);
    }
  }

  /** A juror label is shown stripped, and a stripped juror label is
      shown as it is. */
  lemma JurorIdempotent(speaker: string)
    requires !Contains(speaker, "Judge") && !Contains(speaker, "Petitioner") && !Contains(speaker, "Appellant")
    requires !Contains(speaker, "Respondent") && !Contains(speaker, "Defense") && Contains(speaker, "Juror")
    ensures Canon(Canon(speaker)) == Canon(speaker)
  {
    var t := Strip(speaker);
    assert Canon(speaker) == t;
    StripContains(speaker, "Judge");
    StripContains(speaker, "Petitioner");
    StripContains(speaker, "Appellant");
    StripContains(speaker, "Respondent");
    StripContains(speaker, "Defense");
    StripContains(speaker, "Juror");
    StripIdempotent(speaker);
    JurorStripFixed(t);
  }

  lemma JurorStripFixed(t: string)
    requires !Contains(t, "Judge") && !Contains(t, "Petitioner") && !Contains(t, "Appellant")
    requires !Contains(t, "Respondent") && !Contains(t, "Defense") && Contains(t, "Juror")
    requires Strip(t) == t
    ensures Canon(t) == t
  {
  }

  /** The display name of a label is one of the three fixed names, the
      stripped label (for a juror) or the label itself. */
  lemma CanonRange(speaker: string)
    ensures || Canon(speaker) == PresidingJudge
            || Canon(speaker) == PetitionerCounsel
            || Canon(speaker) == RespondentCounsel
            || Canon(speaker) == Strip(speaker)
            || Canon(speaker) == speaker
  {
  }

  /** The judge test comes first: a label holding "Judge" is shown as the
      presiding judge whatever other role keywords it holds, such as
      "Judge for the Petitioner". */
  lemma JudgeOutranksPetitioner(speaker: string)
    requires Contains(speaker, "Judge")
    ensures Canon(speaker) == PresidingJudge
    ensures Contains(speaker, "Petitioner") ==> Canon(speaker) != PetitionerCounsel
  {
  }

  /** A display name holds a colon only if the label did. */
  lemma CanonNoColon(speaker: string)
    ensures ':' in Canon(speaker) ==> ':' in speaker
  {
    DisplayNamesClean();
    StripChars(speaker, ':');
  }

  /** The display name of a stripped label is stripped. */
  lemma CanonStripped(speaker: string)
    requires Strip(speaker) == speaker
    ensures Strip(Canon(speaker)) == Canon(speaker)
  {
    DisplayNamesClean();
  }

  // ---------------------------------------------------------------------
  // Lines

  /** What the parser guarantees about one classified line: a turn's
      display name holds no colon and, like its text, is stripped; any
      other kept line is non-empty and stripped. */
  predicate LineOk(l: Line)
  {
    match l
    case Blank => true
    case Turn(name, text) => ':' !in name && Strip(name) == name && Strip(text) == text
    case Plain(line) => line != "" && Strip(line) == line
  }

  /** A line is dropped as blank exactly when it is all whitespace. */
  lemma BlankIff(raw: string)
    ensures Classify(raw) == Blank <==> AllSpace(raw)
  {
    StripEmptyIff(raw);
  }

  /** A line opens a turn exactly when its stripped form holds a colon and
      a role keyword (the keyword may come after the colon); it is then
      split at its first colon: the label part holds no colon, label,
      colon and rest give back the line, and the turn shows the display
      name of the stripped label and the stripped rest. */
  lemma TurnSplit(raw: string)
    ensures Classify(raw).Turn? <==> ':' in Strip(raw) && HasRoleKeyword(Strip(raw))
    ensures Classify(raw).Turn? ==>
      var (speaker, rest) := SplitFirst(Strip(raw), ':');
      && ':' !in speaker
      && speaker + [':'] + rest == Strip(raw)
      && Classify(raw) == Turn(Canon(Strip(speaker)), Strip(rest))
  {
    if ':' in Strip(raw) {
      SplitFirstParts(Strip(raw), ':');
    }
  }

  /** A line with no colon never opens a turn, whatever role it names. */
  lemma NoColonNoTurn(raw: string)
    requires ':' !in raw
    ensures Classify(raw) == Blank || Classify(raw) == Plain(Strip(raw))
  {
    StripChars(raw, ':');
  }

  /** Every classified line satisfies `LineOk`. */
  lemma ClassifyClean(raw: string)
    ensures LineOk(Classify(raw))
  {
    var line := Strip(raw);
    StripIdempotent(raw);
    if line != "" && OpensTurn(line) {
      var (speaker, rest) := SplitFirst(line, ':');
      SplitFirstParts(line, ':');
      StripChars(speaker, ':');
      CanonNoColon(Strip(speaker));
      StripIdempotent(speaker);
      CanonStripped(Strip(speaker));
      StripIdempotent(rest);
    }
  }

  // ---------------------------------------------------------------------
  // The whole transcript

  /** Reading `a` and then `b` leaves the speaker that reading `b` from
      the speaker `a` leaves behind would leave. */
  lemma {:induction false} SpeakerAppend(cur: Speaker, a: seq<Line>, b: seq<Line>)
    ensures SpeakerAfter(cur, a + b) == SpeakerAfter(SpeakerAfter(cur, a), b)
    decreases |a|
  {
    if a == [] {
      assert a + b == b;
    } else {
      assert (a + b)[0] == a[0];
      assert (a + b)[1..] == a[1..] + b;
      SpeakerAppend(Step(cur, a[0]).0, a[1..], b);
    }
  }

  /** Reading `a` and then `b` writes the items of `a` followed by those of
      `b`, read from the speaker `a` leaves behind. */
  lemma {:induction false} ParseAppend(cur: Speaker, a: seq<Line>, b: seq<Line>)
    ensures ParseFrom(cur, a + b) == ParseFrom(cur, a) + ParseFrom(SpeakerAfter(cur, a), b)
    decreases |a|
  {
    if a == [] {
      assert a + b == b;
    } else {
      var (next, out) := Step(cur, a[0]);
      assert (a + b)[0] == a[0];
      assert (a + b)[1..] == a[1..] + b;
      ParseAppend(next, a[1..], b);
      assert SpeakerAfter(cur, a) == SpeakerAfter(next, a[1..]);
      assert ParseFrom(cur, a + b) == out + ParseFrom(next, a[1..] + b);
      assert ParseFrom(cur, a) == out + ParseFrom(next, a[1..]);
    }
  }

  /** The language of what the parser writes, as a grammar: a turn is a
      header immediately followed by its body, a body only ever follows
      its header, and a continuation line may only appear while the
      current speaker (the latest header's name, or `cur` before any) is
      truthy. */
  predicate Chat(cur: Speaker, items: seq<Item>)
    decreases |items|
  {
    if items == [] then true
    else match items[0]
      case Header(name) => |items| >= 2 && items[1].Body? && Chat(Named(name), items[2..])
      case Body(_) => false
      case Cont(_) => Truthy(cur) && Chat(cur, items[1..])
  }

  /** What the parser guarantees about one written item. */
  predicate ItemOk(it: Item)
  {
    match it
    case Header(name) => ':' !in name && Strip(name) == name
    case Body(text) => Strip(text) == text
    case Cont(line) => line != "" && Strip(line) == line
  }

  /** The output of the parser is in the `Chat` language. */
  lemma {:induction false} ParseChat(cur: Speaker, ls: seq<Line>)
    ensures Chat(cur, ParseFrom(cur, ls))
    decreases |ls|
  {
    if ls != [] {
      var (next, out) := Step(cur, ls[0]);
      ParseChat(next, ls[1..]);
      var items := ParseFrom(cur, ls);
      assert items == out + ParseFrom(next, ls[1..]);
      match ls[0]
      case Blank =>
        assert items == ParseFrom(next, ls[1..]);
      case Turn(name, text) =>
        assert items[2..] == ParseFrom(next, ls[1..]);
      case Plain(line) =>
        if Truthy(cur) {
          assert items[1..] == ParseFrom(next, ls[1..]);
        } else {
          assert items == ParseFrom(next, ls[1..]);
        }
    }
  }

  /** Clean lines give clean items. */
  lemma {:induction false} ParseClean(cur: Speaker, ls: seq<Line>)
    requires forall k :: 0 <= k < |ls| ==> LineOk(ls[k])
    ensures forall k :: 0 <= k < |ParseFrom(cur, ls)| ==> ItemOk(ParseFrom(cur, ls)[k])
    decreases |ls|
  {
    if ls != [] {
      var (next, out) := Step(cur, ls[0]);
      assert LineOk(ls[0]);
      ParseClean(next, ls[1..]);
      var items := ParseFrom(cur, ls);
      var rest := ParseFrom(next, ls[1..]);
      assert items == out + rest;
      assert forall k :: 0 <= k < |out| ==> ItemOk(out[k]);
      forall k | 0 <= k < |items| ensures ItemOk(items[k]) {
        if k < |out| {
          assert items[k] == out[k];
        } else {
          assert items[k] == rest[k - |out|];
        }
      }
    }
  }

  /** The classified lines of a transcript are all clean. */
  lemma ClassifiedClean(lines: seq<string>)
    ensures forall k :: 0 <= k < |Classified(lines)| ==> LineOk(Classified(lines)[k])
  {
    forall k | 0 <= k < |lines| ensures LineOk(Classified(lines)[k]) {
      ClassifiedAt(lines, k);
      ClassifyClean(lines[k]);
    }
  }

  /** The number of headers among `items`. */
  function Headers(items: seq<Item>): nat
  {
    if items == [] then 0 else (if items[0].Header? then 1 else 0) + Headers(items[1..])
  }

  /** The number of raw lines that open a turn. */
  function TurnLines(lines: seq<string>): nat
  {
    if lines == [] then 0 else (if OpensTurn(Strip(lines[0])) then 1 else 0) + TurnLines(lines[1..])
  }

  /** The number of raw lines that are not blank. */
  function NonBlankLines(lines: seq<string>): nat
  {
    if lines == [] then 0 else (if Strip(lines[0]) != "" then 1 else 0) + NonBlankLines(lines[1..])
  }

  /** The number of turn lines among classified lines. */
  function Turns(ls: seq<Line>): nat
  {
    if ls == [] then 0 else (if ls[0].Turn? then 1 else 0) + Turns(ls[1..])
  }

  /** One header is written per turn line, and no other. */
  lemma {:induction false} ParseHeaders(cur: Speaker, ls: seq<Line>)
    ensures Headers(ParseFrom(cur, ls)) == Turns(ls)
    decreases |ls|
  {
    if ls != [] {
      var (next, out) := Step(cur, ls[0]);
      ParseHeaders(next, ls[1..]);
      var items := ParseFrom(cur, ls);
      var rest := ParseFrom(next, ls[1..]);
      assert items == out + rest;
      match ls[0]
      case Blank =>
        assert items == rest;
      case Turn(name, text) =>
        assert items[1..] == [Body(text)] + rest;
        assert items[1..][1..] == rest;
      case Plain(line) =>
        if Truthy(cur) {
          assert items[1..] == rest;
        } else {
          assert items == rest;
        }
    }
  }

  /** A classified line is a turn exactly when the raw line opens one, and
      every turn line is non-blank. */
  lemma {:induction false} TurnsCounted(lines: seq<string>)
    ensures Turns(Classified(lines)) == TurnLines(lines) <= NonBlankLines(lines)
  {
    if lines != [] {
      TurnsCounted(lines[1..]);
      assert Classified(lines)[1..] == Classified(lines[1..]);
    }
  }

  /** With no truthy speaker to continue, the parser writes nothing
      exactly when no line is a turn. */
  lemma {:induction false} ParseEmptyIff(cur: Speaker, ls: seq<Line>)
    requires !Truthy(cur)
    ensures ParseFrom(cur, ls) == [] <==> forall k :: 0 <= k < |ls| ==> !ls[k].Turn?
    decreases |ls|
  {
    if ls != [] {
      var (next, out) := Step(cur, ls[0]);
      if !ls[0].Turn? {
        assert next == cur && out == [];
        ParseEmptyIff(cur, ls[1..]);
        assert forall k :: 1 <= k < |ls| ==> ls[k] == ls[1..][k - 1];
      }
    }
  }

  /** The shape of everything `display_chat` writes for a transcript:
      it is in the `Chat` language starting with no speaker (so nothing is
      written before the first turn), every item is clean, and there is
      one header per line that opens a turn, so no more headers than
      non-blank lines. */
  lemma ParseShape(transcript: string)
    ensures Chat(NoSpeaker, Parse(transcript))
    ensures forall k :: 0 <= k < |Parse(transcript)| ==> ItemOk(Parse(transcript)[k])
    ensures Headers(Parse(transcript)) == TurnLines(Split(transcript, '\n'))
    ensures TurnLines(Split(transcript, '\n')) <= NonBlankLines(Split(transcript, '\n'))
  {
    var lines := Split(transcript, '\n');
    ParseChat(NoSpeaker, Classified(lines));
    ClassifiedClean(lines);
    ParseClean(NoSpeaker, Classified(lines));
    ParseHeaders(NoSpeaker, Classified(lines));
    TurnsCounted(lines);
  }

  /** `display_chat` writes nothing exactly when no line of the transcript
      opens a turn. */
  lemma TranscriptEmptyIff(transcript: string)
    ensures Parse(transcript) == [] <==>
      forall k :: 0 <= k < |Split(transcript, '\n')| ==> !OpensTurn(Strip(Split(transcript, '\n')[k]))
  {
    var lines := Split(transcript, '\n');
    var ls := Classified(lines);
    assert Parse(transcript) == ParseFrom(NoSpeaker, ls);
    ParseEmptyIff(NoSpeaker, ls);
    forall k | 0 <= k < |lines| ensures ls[k].Turn? <==> OpensTurn(Strip(lines[k])) {
      ClassifiedAt(lines, k);
    }
  }

  /** Classifying one more line appends that line's class. */
  lemma {:induction false} ClassifiedSnoc(lines: seq<string>, line: string)
    ensures Classified(lines + [line]) == Classified(lines) + [Classify(line)]
  {
    if lines != [] {
      assert (lines + [line])[1..] == lines[1..] + [line];
      ClassifiedSnoc(lines[1..], line);
    }
  }

  /** A final line break, as a reply usually has, changes nothing shown. */
  lemma TrailingNewline(transcript: string)
    ensures Parse(transcript + "\n") == Parse(transcript)
  {
    var lines := Split(transcript, '\n');
    assert transcript + "\n" == transcript + ['\n'];
    SplitTrailing(transcript, '\n');
    ClassifiedSnoc(lines, "");
    assert Classify("") == Blank;
    ParseSnoc(NoSpeaker, Classified(lines), Blank);
  }

  /** A blank transcript (the empty string included) writes nothing. */
  lemma BlankTranscript(transcript: string)
    requires AllSpace(transcript)
    ensures Parse(transcript) == []
  {
    var lines := Split(transcript, '\n');
    SplitAllSpace(transcript, '\n');
    forall k | 0 <= k < |lines| ensures !OpensTurn(Strip(lines[k])) {
      StripEmptyIff(lines[k]);
    }
    TranscriptEmptyIff(transcript);
  }

  /** Any header is immediately followed by a body and any body
      immediately follows a header. */
  lemma {:induction false} ChatPairs(cur: Speaker, items: seq<Item>)
    requires Chat(cur, items)
    ensures forall k :: 0 <= k < |items| && items[k].Header? ==> k + 1 < |items| && items[k + 1].Body?
    ensures forall k :: 0 <= k < |items| && items[k].Body? ==> 0 < k && items[k - 1].Header?
    decreases |items|
  {
    if items != [] {
      match items[0]
      case Header(name) =>
        ChatPairs(Named(name), items[2..]);
        forall k | 2 <= k < |items| ensures items[k] == items[2..][k - 2] { }
      case Cont(_) =>
        ChatPairs(cur, items[1..]);
        forall k | 1 <= k < |items| ensures items[k] == items[1..][k - 1] { }
    }
  }

  /** Nothing is written before the first turn: the output is empty or
      starts with a header. */
  lemma ParseStartsWithHeader(transcript: string)
    ensures Parse(transcript) == [] || Parse(transcript)[0].Header?
  {
    ParseShape(transcript);
  }

  // ---------------------------------------------------------------------
  // Transcripts in the requested format

  /** One turn as a transcript line would state it: a speaker label and
      what the speaker said. */
  datatype Utterance = Utterance(speaker: string, text: string)

  /** A turn that can be written on one `label: text` line: the label is
      non-empty, stripped, names a role and holds no colon; neither part
      holds a line break, and the text is stripped. */
  predicate WellSpoken(u: Utterance)
  {
    && u.speaker != "" && Strip(u.speaker) == u.speaker
    && ':' !in u.speaker && '\n' !in u.speaker && '\n' !in u.text
    && Strip(u.text) == u.text
    && HasRoleKeyword(u.speaker)
  }

  /** Every turn of `us` is well-spoken. */
  predicate AllWellSpoken(us: seq<Utterance>)
  {
    us == [] || (WellSpoken(us[0]) && AllWellSpoken(us[1..]))
  }

  /** The transcript line of a turn. */
  function Render(u: Utterance): string
  {
    u.speaker + ": " + u.text
  }

  /** The lines of a sequence of turns. */
  function Rendered(us: seq<Utterance>): (lines: seq<string>)
    ensures |lines| == |us|
  {
    if us == [] then [] else [Render(us[0])] + Rendered(us[1..])
  }

  /** A transcript of turns, one per line. */
  function Format(us: seq<Utterance>): string
  {
    if us == [] then "" else Join(Rendered(us), '\n')
  }

  /** What the container should show for a sequence of turns: each
      turn's display name in bold, then its text. */
  function Shown(us: seq<Utterance>): seq<Item>
  {
    if us == [] then [] else [Header(Canon(us[0].speaker)), Body(us[0].text)] + Shown(us[1..])
  }

  /** A stripped string equals its `lstrip` and its `rstrip`. */
  lemma StrippedTrims(s: string)
    requires Strip(s) == s
    ensures TrimLeft(s) == s && TrimRight(s) == s
  {
    StripShape(s);
    TrimLeftShape(s);
    TrimRightShape(TrimLeft(s));
  }

  /** Stripping the line of a well-spoken turn drops only the space after
      the colon, and only when the text is empty. */
  lemma RenderStripped(u: Utterance)
    requires WellSpoken(u)
    ensures Strip(Render(u)) == u.speaker + [':'] + (if u.text == "" then "" else " " + u.text)
  {
    var (speaker, text) := (u.speaker, u.text);
    StrippedTrims(text);
    StripShape(speaker);
    var line := Render(u);
    if text == "" {
      var kept := speaker + ":";
      assert line == kept + " ";
      assert TrimLeft(line) == line;
      assert line[..|line| - 1] == kept;
      assert TrimRight(kept) == kept;
    } else {
      StripShape(text);
      assert TrimLeft(line) == line;
      assert TrimRight(line) == line;
    }
  }

  /** The line of a well-spoken turn is read back as that turn: the
      label is split off at the colon and shown under its display name,
      and the text comes back unchanged. */
  lemma RenderClassify(u: Utterance)
    requires WellSpoken(u)
    ensures Classify(Render(u)) == Turn(Canon(u.speaker), u.text)
  {
    var (speaker, text) := (u.speaker, u.text);
    RenderStripped(u);
    var rest := if text == "" then "" else " " + text;
    var stripped := speaker + [':'] + rest;
    FirstIndexAfter(speaker, ':', rest);
    assert stripped[..|speaker|] == speaker;
    assert stripped[|speaker| + 1..] == rest;
    assert SplitFirst(stripped, ':') == (speaker, rest);
    assert Strip(rest) == text by {
      StrippedTrims(text);
      if text != "" {
        assert TrimLeft(rest) == TrimLeft(text);
      }
    }
    assert HasRoleKeyword(stripped) by {
      assert stripped[0..|speaker|] == speaker;
      if Contains(speaker, "Judge") { SliceContains(stripped, 0, |speaker|, "Judge"); }
      if Contains(speaker, "Counsel") { SliceContains(stripped, 0, |speaker|, "Counsel"); }
      if Contains(speaker, "Petitioner") { SliceContains(stripped, 0, |speaker|, "Petitioner"); }
      if Contains(speaker, "Respondent") { SliceContains(stripped, 0, |speaker|, "Respondent"); }
      if Contains(speaker, "Juror") { SliceContains(stripped, 0, |speaker|, "Juror"); }
    }
    StrippedTrims(speaker);
  }

  /** The classified lines a sequence of turns should give. */
  function AsLines(us: seq<Utterance>): seq<Line>
  {
    if us == [] then [] else [Turn(Canon(us[0].speaker), us[0].text)] + AsLines(us[1..])
  }

  lemma {:induction false} RenderedClassified(us: seq<Utterance>)
    requires AllWellSpoken(us)
    ensures Classified(Rendered(us)) == AsLines(us)
  {
    if us != [] {
      RenderClassify(us[0]);
      assert Rendered(us)[1..] == Rendered(us[1..]);
      RenderedClassified(us[1..]);
    }
  }

  lemma {:induction false} ParseAsLines(cur: Speaker, us: seq<Utterance>)
    ensures ParseFrom(cur, AsLines(us)) == Shown(us)
    decreases |us|
  {
    if us != [] {
      var l := Turn(Canon(us[0].speaker), us[0].text);
      assert AsLines(us)[0] == l;
      assert AsLines(us)[1..] == AsLines(us[1..]);
      ParseAsLines(Named(l.name), us[1..]);
    }
  }

  /** No rendered line holds a line break. */
  lemma {:induction false} RenderedSingleLines(us: seq<Utterance>)
    requires AllWellSpoken(us)
    ensures forall k :: 0 <= k < |Rendered(us)| ==> '\n' !in Rendered(us)[k]
  {
    if us != [] {
      RenderedSingleLines(us[1..]);
      assert '\n' !in Render(us[0]);
      forall k | 1 <= k < |us| ensures Rendered(us)[k] == Rendered(us[1..])[k - 1] {
      }
    }
  }

  /** A transcript written one well-spoken turn per line is shown as
      exactly those turns: each label under its display name, followed by
      its text, in order. */
  lemma FormatParse(us: seq<Utterance>)
    requires AllWellSpoken(us)
    ensures Parse(Format(us)) == Shown(us)
  {
    if us == [] {
      BlankTranscript("");
    } else {
      RenderedSingleLines(us);
      RenderedClassified(us);
      JoinedParse(Rendered(us), AsLines(us));
      ParseAsLines(NoSpeaker, us);
    }
  }

  /** The round trip also holds with the final line break. */
  lemma FormatParseTrailing(us: seq<Utterance>)
    requires AllWellSpoken(us)
    ensures Parse(Format(us) + "\n") == Shown(us)
  {
    TrailingNewline(Format(us));
    FormatParse(us);
  }

  /** Lines free of line breaks, joined by line breaks, are parsed line by
      line. */
  lemma JoinedParse(lines: seq<string>, ls: seq<Line>)
    requires |lines| >= 1
    requires forall k :: 0 <= k < |lines| ==> '\n' !in lines[k]
    requires Classified(lines) == ls
    ensures Parse(Join(lines, '\n')) == ParseFrom(NoSpeaker, ls)
  {
    SplitJoin(lines, '\n');
  }
}
