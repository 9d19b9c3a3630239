/** The three task descriptions the simulation sends, one per phase. Each
    is a Python triple-quoted f-string: it opens with a line break, every
    line carries the sixteen spaces of indentation it has in the script,
    and it ends with a line break followed by that indentation. The
    earlier results are placed into them verbatim. */
module Prompts {
  import opened Text
  import opened Transcript

  /** The indentation of every template line. */
  const Indent: string := "                "

  const NewLine: string := "\n" + Indent

  // Phase 1: the oral arguments, built from the case text.

  const ArgumentsHead: string := NewLine + "Simulate Supreme Court oral arguments based ONLY on this case:" + NewLine

  const ArgumentsTail: string :=
    NewLine + PetitionerCounsel + " opens, " + RespondentCounsel + " responds, " + PresidingJudge + " moderates."
    + NewLine + "Use exact speaker titles: " + PresidingJudge + ", " + PetitionerCounsel + ", " + RespondentCounsel + "."
    + NewLine + "Produce a clean transcript with no emojis, no extra symbols, no stage directions."
    + NewLine

  function ArgumentsPrompt(caseText: string): string
  {
    ArgumentsHead + caseText + ArgumentsTail
  }

  // Phase 2: the jury deliberation, built from the arguments transcript.

  const DeliberationHead: string := NewLine + "Three jurors deliberate on these arguments:" + NewLine

  /** The first juror's role name, quoted in the phase-2 prompt. */
  const FirstJuror: string := "Juror #1 (Analytical)"

  const DeliberationTail: string :=
    NewLine + "Each juror speaks using their full role name: " + FirstJuror + ", etc."
    + NewLine + "End with clear vote count and majority reasoning."
    + NewLine + "No emojis, no extra symbols, no stage directions."
    + NewLine

  function DeliberationPrompt(argsText: string): string
  {
    DeliberationHead + argsText + DeliberationTail
  }

  // Phase 3: the judgment, built from both transcripts.

  const VerdictHead: string := NewLine + "Deliver final Supreme Court judgment based on:" + NewLine + "Arguments: "

  const VerdictMiddle: string := NewLine + "Jury deliberation: "

  /** The heading the judgment is to start with, which the verdict panel
      also shows. */
  const JudgmentHeading: string := "Judgment Pronounced"

  const VerdictTail: string :=
    NewLine + "Start with \"" + JudgmentHeading + "\" as a heading."
    + NewLine + "Then provide the full judgment using only the title \"" + PresidingJudge + "\" for all speaking parts."
    + NewLine + "No emojis, no extra symbols, no additional text after the judgment."
    + NewLine + "State clearly whether the appeal is allowed or dismissed and give the operative order."
    + NewLine

  function VerdictPrompt(argsText: string, delibText: string): string
  {
    VerdictHead + argsText + VerdictMiddle + delibText + VerdictTail
  }

  /** Filling one slot of a template is injective: the filled-in text can
      be read back from the result. */
  lemma SlotInjective(head: string, x: string, y: string, tail: string)
    requires head + x + tail == head + y + tail
    ensures x == y
  {
    var p := head + x + tail;
    assert |x| == |y|;
    assert p[|head|..|head| + |x|] == x;
    assert (head + y + tail)[|head|..|head| + |y|] == y;
  }

  /** The case text sits in the phase-1 prompt right after the head. */
  lemma ArgumentsPromptEmbeds(caseText: string)
    ensures OccursAt(ArgumentsPrompt(caseText), caseText, |ArgumentsHead|)
    ensures Contains(ArgumentsPrompt(caseText), caseText)
  {
    ContainsEmbedded(ArgumentsHead, caseText, ArgumentsTail);
  }

  /** Different case texts give different phase-1 prompts. */
  lemma ArgumentsPromptInjective(c1: string, c2: string)
    ensures ArgumentsPrompt(c1) == ArgumentsPrompt(c2) <==> c1 == c2
  {
    if ArgumentsPrompt(c1) == ArgumentsPrompt(c2) {
      SlotInjective(ArgumentsHead, c1, c2, ArgumentsTail);
    }
  }

  /** The arguments transcript sits in the phase-2 prompt right after the
      head. */
  lemma DeliberationPromptEmbeds(argsText: string)
    ensures OccursAt(DeliberationPrompt(argsText), argsText, |DeliberationHead|)
    ensures Contains(DeliberationPrompt(argsText), argsText)
  {
    ContainsEmbedded(DeliberationHead, argsText, DeliberationTail);
  }

  /** Different arguments transcripts give different phase-2 prompts. */
  lemma DeliberationPromptInjective(a1: string, a2: string)
    ensures DeliberationPrompt(a1) == DeliberationPrompt(a2) <==> a1 == a2
  {
    if DeliberationPrompt(a1) == DeliberationPrompt(a2) {
      SlotInjective(DeliberationHead, a1, a2, DeliberationTail);
    }
  }

  /** The phase-3 prompt holds the arguments transcript and, after it, the
      deliberation transcript, each verbatim. */
  lemma VerdictPromptEmbeds(argsText: string, delibText: string)
    ensures OccursAt(VerdictPrompt(argsText, delibText), argsText, |VerdictHead|)
    ensures OccursAt(VerdictPrompt(argsText, delibText), delibText, |VerdictHead| + |argsText| + |VerdictMiddle|)
    ensures |VerdictHead| + |argsText| < |VerdictHead| + |argsText| + |VerdictMiddle|
    ensures Contains(VerdictPrompt(argsText, delibText), argsText)
    ensures Contains(VerdictPrompt(argsText, delibText), delibText)
  {
    TwoSlotsEmbedded(VerdictHead, argsText, VerdictMiddle, delibText, VerdictTail);
  }

  /** With the deliberation transcript fixed, different arguments
      transcripts give different phase-3 prompts, and the other way
      round. */
  lemma VerdictPromptInjective(a1: string, d1: string, a2: string, d2: string)
    requires VerdictPrompt(a1, d1) == VerdictPrompt(a2, d2)
    ensures a1 == a2 <==> d1 == d2
  {
    if a1 == a2 {
      SlotInjective(VerdictHead + a1 + VerdictMiddle, d1, d2, VerdictTail);
    }
    if d1 == d2 {
      var p := VerdictPrompt(a1, d1);
      assert |a1| == |a2|;
      assert p[|VerdictHead|..|VerdictHead| + |a1|] == a1;
      assert VerdictPrompt(a2, d2)[|VerdictHead|..|VerdictHead| + |a2|] == a2;
    }
  }
}
