/** One press of "Start Simulation": the empty-input guard, then the three
    phases in order. Each phase builds its task description from the
    results so far, kicks off its crew, and shows the transcript it gets
    back in the phase's tab; the verdict tab shows the judgment heading
    before the judgment. The crews and their language models are outside
    the model: a phase's kickoff is a call of the `backend` parameter,
    which either returns a raw text or raises, and a raised exception
    ends the run. */
module Pipeline {
  import opened Text
  import opened Transcript
  import opened Prompts

  /** The three crews of a run, in the order they are kicked off. */
  datatype Phase = Arguments | Deliberation | Verdict

  /** One kickoff: which crew, with which task description. */
  datatype Call = Call(phase: Phase, prompt: string)

  /** What a kickoff gives back: the result's raw text, or an exception. */
  datatype Reply = Raised | Returned(raw: string)

  /** How a run ends: stopped by the guard, ended by an exception in one
      phase, or with all three tabs filled. */
  datatype Outcome = MissingCase | Failed(phase: Phase) | Completed

  /** What the verdict tab shows for a judgment: the bold heading, then
      the judgment as `display_chat` writes it. */
  function VerdictPanel(verdictText: string): seq<Item>
  {
    [Header(JudgmentHeading)] + Parse(verdictText)
  }

  /** The verdict tab starts with the heading, which is followed by the
      parsed judgment; the first item after the heading, if any, is the
      header of the judgment's first turn, and the panel holds one header
      more than the judgment has turn lines. */
  lemma VerdictPanelShape(verdictText: string)
    ensures VerdictPanel(verdictText)[0] == Header(JudgmentHeading)
    ensures VerdictPanel(verdictText)[1..] == Parse(verdictText)
    ensures |VerdictPanel(verdictText)| == 1 || VerdictPanel(verdictText)[1].Header?
    ensures Headers(VerdictPanel(verdictText)) == 1 + TurnLines(Split(verdictText, '\n'))
  {
    ParseShape(verdictText);
    ParseStartsWithHeader(verdictText);
    assert VerdictPanel(verdictText)[1..] == Parse(verdictText);
  }

  /** The run started by the button, with the case text in the text area. */
  method StartSimulation(caseText: string, backend: Call -> Reply)
    returns (outcome: Outcome, calls: seq<Call>, argsTab: seq<Item>, delibTab: seq<Item>, verdictTab: seq<Item>)
    ensures outcome == MissingCase <==> AllSpace(caseText)
    ensures |calls| == (match outcome
                        case MissingCase => 0
                        case Failed(Arguments) => 1
                        case Failed(Deliberation) => 2
                        case _ => 3)
    ensures |calls| >= 1 ==> calls[0] == Call(Arguments, ArgumentsPrompt(caseText))
    ensures |calls| >= 2 ==>
      && backend(calls[0]).Returned?
      && calls[1] == Call(Deliberation, DeliberationPrompt(backend(calls[0]).raw))
    ensures |calls| >= 3 ==>
      && backend(calls[1]).Returned?
      && calls[2] == Call(Verdict, VerdictPrompt(backend(calls[0]).raw, backend(calls[1]).raw))
    ensures outcome.Failed? ==> backend(calls[|calls| - 1]).Raised?
    ensures outcome == Completed ==> backend(calls[2]).Returned?
    ensures argsTab == (if |calls| >= 1 && backend(calls[0]).Returned? then Parse(backend(calls[0]).raw) else [])
    ensures delibTab == (if |calls| >= 2 && backend(calls[1]).Returned? then Parse(backend(calls[1]).raw) else [])
    ensures verdictTab == (if outcome == Completed then VerdictPanel(backend(calls[2]).raw) else [])
  {
    StripEmptyIff(caseText);
    if Strip(caseText) == "" {
      return MissingCase, [], [], [], [];
    }
    argsTab, delibTab, verdictTab := [], [], [];

    var taskArgs := Call(Arguments, ArgumentsPrompt(caseText));
    calls := [taskArgs];
    var resultArgs := backend(taskArgs);
    if resultArgs.Raised? {
      return Failed(Arguments), calls, argsTab, delibTab, verdictTab;
    }
    var argsText := resultArgs.raw;
    argsTab := DisplayChat(argsText);

    var taskDelib := Call(Deliberation, DeliberationPrompt(argsText));
    calls := calls + [taskDelib];
    var resultDelib := backend(taskDelib);
    if resultDelib.Raised? {
      return Failed(Deliberation), calls, argsTab, delibTab, verdictTab;
    }
    var delibText := resultDelib.raw;
    delibTab := DisplayChat(delibText);

    var taskVerdict := Call(Verdict, VerdictPrompt(argsText, delibText));
    calls := calls + [taskVerdict];
    var resultVerdict := backend(taskVerdict);
    if resultVerdict.Raised? {
      return Failed(Verdict), calls, argsTab, delibTab, verdictTab;
    }
    var verdictText := resultVerdict.raw;
    verdictTab := [Header(JudgmentHeading)];
    var judgment := DisplayChat(verdictText);
    verdictTab := verdictTab + judgment;
    outcome := Completed;
  }

  /** In a completed run every task description holds the results before
      it verbatim: the first holds the case text, the second the
      arguments transcript, and the third the arguments transcript
      followed, later on, by the deliberation transcript. */
  lemma CompletedRunEmbedsHistory(caseText: string, backend: Call -> Reply, calls: seq<Call>)
    requires |calls| == 3
    requires calls[0] == Call(Arguments, ArgumentsPrompt(caseText))
    requires backend(calls[0]).Returned? && backend(calls[1]).Returned?
    requires calls[1] == Call(Deliberation, DeliberationPrompt(backend(calls[0]).raw))
    requires calls[2] == Call(Verdict, VerdictPrompt(backend(calls[0]).raw, backend(calls[1]).raw))
    ensures Contains(calls[0].prompt, caseText)
    ensures Contains(calls[1].prompt, backend(calls[0]).raw)
    ensures OccursAt(calls[2].prompt, backend(calls[0]).raw, |VerdictHead|)
    ensures OccursAt(calls[2].prompt, backend(calls[1]).raw, |VerdictHead| + |backend(calls[0]).raw| + |VerdictMiddle|)
  {
    ArgumentsPromptEmbeds(caseText);
    DeliberationPromptEmbeds(backend(calls[0]).raw);
    VerdictPromptEmbeds(backend(calls[0]).raw, backend(calls[1]).raw);
  }
}
