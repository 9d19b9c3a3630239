# Agents of Justice: the transcript parser and the three-phase run, in Dafny

Agents of Justice is a Streamlit app. It simulates a Supreme Court hearing with three crews of language-model agents:

1. counsel and the presiding judge produce the oral arguments for a case summary;
2. three jurors deliberate on those arguments;
3. the judge delivers the judgment.

Each phase sends a task description that quotes the earlier results. The app then shows the transcript it gets back in the phase's tab, using the helper `display_chat`.

This project models four parts of the app:

- **The transcript parser `display_chat`** (module `Transcript`).
  - It is written as the imperative loop of the source, `Transcript.DisplayChat`, over the lines of the transcript, with `current_speaker` as the loop's state.
  - The loop is proved equal to a pure specification, `Transcript.Parse`, built from a one-line transition function `Step` of the two-state machine (no speaker / speaker `name`).
  - The lemmas beside it state what the parser promises:
    - blank lines and lines before the first turn are dropped;
    - a turn is a bold display name immediately followed by its text;
    - a continuation line appears only while the current speaker is truthy (not `None` and not `""`);
    - there is one header per line that opens a turn;
    - display names hold no colon;
    - choosing a display name is idempotent;
    - a transcript written one `label: text` line per turn is shown as exactly those turns.
- **The Python string built-ins** the parser relies on (module `Text`): `str.strip()` with Python's `isspace` character set, the substring test `w in s`, `str.split(c)` and `str.split(c, 1)`.
- **The three task descriptions** (module `Prompts`). Each is an exact triple-quoted f-string text, including its leading line break and its sixteen-space indentation. The lemmas show that each description embeds its inputs verbatim, at known offsets and in order.
- **One press of "Start Simulation"** (module `Pipeline`):
  - the empty-input guard;
  - the three phases in order, each kickoff a call of a `backend` parameter that returns a raw text or raises;
  - what each tab shows, including the verdict tab's fixed "Judgment Pronounced" heading.

Two details of the code are worth spelling out:

- **Where the role keyword may be.** A role keyword anywhere in the stripped line opens a turn, also one after the colon (`app.py:113`); see `Transcript.TurnSplit`.
- **Juror labels.** Juror labels are shown as `speaker.strip()`, which equals the label already stripped at `app.py:115`.

## Model

| member | source | states |
|---|---|---|
| Text.StripShape | app.py:110 | `strip()` removes a whitespace prefix and a whitespace suffix and nothing else; the result starts and ends with non-whitespace |
| Text.StripIdempotent | app.py:124-125 | stripping an already stripped label changes nothing |
| Text.StripEmptyIff | app.py:83 | a string strips to `""` exactly when every character is whitespace |
| Text.StripChars | app.py:114-116 | stripping only removes characters |
| Text.ContainsIff | app.py:113 | the substring test holds exactly when the word occurs at some index |
| Text.MissingCharNotContained | app.py:118-124 | a word holding a character the string lacks is not in it |
| Text.StripContains | app.py:110-124 | a keyword with non-space ends is in a string exactly when it is in the stripped string |
| Text.SliceContains | app.py:113-118 | a word found in the label part of a line is found in the line |
| Text.FirstIndexIsFirst | app.py:114 | `split(":", 1)` cuts at the first colon: no colon comes before it |
| Text.SplitFirstParts | app.py:114 | the label part holds no colon, and label + ":" + rest gives back the line |
| Text.Split | app.py:107 | `split("\n")` always yields at least one piece |
| Text.SplitPiecesFree | app.py:107 | no piece of `split("\n")` holds a line break |
| Text.JoinSplit | app.py:107 | joining the pieces of `split("\n")` with line breaks gives back the transcript |
| Text.SplitJoin | app.py:107 | splitting line-break-free lines joined by line breaks gives back those lines |
| Text.JoinSnoc | app.py:107 | joining one more piece appends the separator and that piece |
| Text.SplitTrailing | app.py:107 | a trailing line break adds one empty last piece to `split("\n")` and changes no other piece |
| Text.SplitAllSpace | app.py:107-111 | every line of a blank transcript is blank |
| Text.ContainsEmbedded | app.py:139-185 | a text placed into a template is found in the result at the slot's offset |
| Text.TwoSlotsEmbedded | app.py:177-185 | a two-slot template holds each filled-in text at its slot's offset |
| Transcript.DisplayChat | app.py:106-133 | the loop writes exactly `Parse(transcript)`, the items of the line-by-line state machine, in line order |
| Transcript.ParseSnoc | app.py:109-133 | reading one more line appends that line's items; earlier items are never revised |
| Transcript.ParseAppend | app.py:109-133 | reading two runs of lines writes the items of the first, then those of the second read from the speaker the first left |
| Transcript.SpeakerAppend | app.py:108-131 | the speaker after two runs of lines is the speaker after the second run, started from the speaker after the first |
| Transcript.JudgeNameFixed | app.py:118-119 | "Presiding Judge" is shown as itself |
| Transcript.PetitionerNameFixed | app.py:118-121 | "Petitioner Counsel" is shown as itself |
| Transcript.RespondentLike | app.py:118-123 | a label starting with "Respondent" with no 'J', 'P' or 'A' is shown as "Respondent Counsel" |
| Transcript.JurorNameFixed | app.py:118-125 | a stripped label starting with "Juror" is shown unchanged when it lacks two characters that between them meet each of "Judge", "Petitioner", "Appellant", "Respondent" and "Defense" |
| Transcript.JurorStripFixed | app.py:118-125 | a stripped label that holds "Juror" and none of "Judge", "Petitioner", "Appellant", "Respondent" and "Defense" is shown unchanged |
| Transcript.JurorOneFixed | app.py:101 | the first juror's role name is shown as it is written |
| Transcript.JurorTwoFixed | app.py:102 | the second juror's role name is shown as it is written |
| Transcript.JurorThreeFixed | app.py:103 | the third juror's role name is shown as it is written |
| Transcript.CanonIdempotent | app.py:118-127 | choosing the display name of a display name changes nothing |
| Transcript.JurorIdempotent | app.py:124-125 | a juror label's display name is its stripped form, which is its own display name |
| Transcript.CanonRange | app.py:118-127 | a display name is one of the three fixed names, the stripped label or the label |
| Transcript.JudgeOutranksPetitioner | app.py:118-121 | a label holding "Judge" is shown as "Presiding Judge" even when it also names the petitioner: the judge test comes first |
| Transcript.CanonNoColon | app.py:114-127 | a display name holds a colon only if its label does |
| Transcript.CanonStripped | app.py:115-127 | the display name of a stripped label is stripped |
| Transcript.BlankIff | app.py:110-112 | a line is skipped as blank exactly when it is all whitespace |
| Transcript.TurnSplit | app.py:113-116 | a line opens a turn exactly when its stripped form holds a colon and a role keyword anywhere; it is split at the first colon into a colon-free label and the rest, shown as the label's display name and the stripped rest |
| Transcript.NoColonNoTurn | app.py:113 | a line with no colon never opens a turn |
| Transcript.ClassifyClean | app.py:110-133 | a turn's display name holds no colon and is stripped, its text is stripped, and a kept continuation line is non-empty and stripped |
| Transcript.ParseChat | app.py:108-133 | the output is in the `Chat` grammar: a header is always followed by its body, and a continuation only appears while the latest header's name (or the starting speaker) is truthy |
| Transcript.ChatPairs | app.py:129-130 | in that grammar every header is immediately followed by a body, and every body immediately follows a header |
| Transcript.ParseClean | app.py:110-133 | clean classified lines give clean written items |
| Transcript.ParseHeaders | app.py:129 | one header is written per turn line and no other |
| Transcript.TurnsCounted | app.py:111-113 | the turn lines are exactly the lines passing the turn test, and there are no more of them than non-blank lines |
| Transcript.ParseEmptyIff | app.py:111-133 | with no truthy speaker to continue, nothing is written exactly when no line is a turn; this covers lines before any turn and lines after a turn with an empty label |
| Transcript.ParseShape | app.py:106-133 | a whole transcript's output is in the grammar from no speaker, every item is clean, and there are as many headers as turn lines and no more than non-blank lines |
| Transcript.TranscriptEmptyIff | app.py:106-133 | `display_chat` writes nothing exactly when no line of the transcript opens a turn |
| Transcript.BlankTranscript | app.py:107-112 | a blank transcript, the empty string included, writes nothing |
| Transcript.ClassifiedSnoc | app.py:107-110 | classifying one more line appends that line's class |
| Transcript.TrailingNewline | app.py:106-112 | a final line break changes nothing that is shown: the empty last line is skipped as blank |
| Transcript.ParseStartsWithHeader | app.py:108-133 | the output is empty or starts with a header: nothing before the first turn is shown |
| Transcript.RenderStripped | app.py:110 | stripping a `label: text` line drops only the space after the colon, and only when the text is empty |
| Transcript.RenderClassify | app.py:110-131 | a `label: text` line with a role label is read back as that turn, under the label's display name |
| Transcript.RenderedClassified | app.py:107-116 | the lines of well-formed turns classify as those turns |
| Transcript.ParseAsLines | app.py:109-131 | a run of turn lines is shown as header and body pairs, in order |
| Transcript.JoinedParse | app.py:107-109 | line-break-free lines joined by line breaks are read back line by line |
| Transcript.FormatParse | app.py:106-133 | a transcript written one well-formed turn per line is shown as exactly those turns, in order |
| Transcript.FormatParseTrailing | app.py:106-133 | a transcript written one well-formed turn per line and ended by a line break is shown as exactly those turns |
| Prompts.ArgumentsPromptEmbeds | app.py:139-145 | the phase-1 description holds the case text verbatim, right after its opening line |
| Prompts.ArgumentsPromptInjective | app.py:139-145 | different case texts give different phase-1 descriptions |
| Prompts.DeliberationPromptEmbeds | app.py:158-164 | the phase-2 description holds the arguments transcript verbatim, right after its opening line |
| Prompts.DeliberationPromptInjective | app.py:158-164 | different arguments transcripts give different phase-2 descriptions |
| Prompts.VerdictPromptEmbeds | app.py:177-185 | the phase-3 description holds the arguments transcript and then, past the "Jury deliberation: " text, the deliberation transcript |
| Prompts.VerdictPromptInjective | app.py:177-185 | between two phase-3 descriptions that are equal, the arguments transcripts are equal exactly when the deliberation transcripts are |
| Pipeline.VerdictPanelShape | app.py:193-194 | the verdict tab shows the heading first and then the parsed judgment; the next item, if any, is a header, and there is one header more than the judgment has turn lines |
| Pipeline.StartSimulation | app.py:82-194 | see below |
| Pipeline.CompletedRunEmbedsHistory | app.py:139-185 | in a completed run each description holds the earlier results verbatim, the arguments before the deliberation |

`Pipeline.StartSimulation` states the following:

- A blank case text stops the run before any phase, and only a blank one does.
- One call is made per phase reached. A raised exception ends the run in that phase.
- Each call's description is built from the raw texts the earlier calls returned.
- A tab shows the parsed transcript once its phase's call returned.
- The verdict tab shows the heading and the parsed judgment only in a completed run.

## Left out

- The Streamlit page is not modelled: the page setup, sidebar, example-case selector and text area (`app.py:1-67`), the buttons (`app.py:69-73`) and the spinners. What a tab shows is modelled as the sequence of `markdown` calls made on it, not as rendered markdown.
- Reading the API key from the secrets and the environment (`app.py:9-13`): it is configuration with no effect on the logic.
- Clearing the session state and rerunning (`app.py:75-80`), and storing the case text in the session (`app.py:80`): this is framework state outside the logic.
- The example case texts are data, not logic.
- The agents, crews, models, temperatures and token limits (`app.py:94-103`, `149`, `168`, `189`) are not modelled. Only their role names enter the model, as the agent role names in `Transcript.JurorOneFixed` and its siblings.
- The language-model calls are not modelled. Each `kickoff()` is a call of the parameter `backend`, which maps a phase and a task description to a raw text or an exception.
- Pipeline.StartSimulation: the `backend` is a deterministic function of the call, so the model cannot express two identical calls with different answers. A run never repeats a call, because the three phases differ, so no run is lost.
- Pipeline.StartSimulation: the `st.warning` message and `st.stop()` of the guard are represented by the outcome `MissingCase` with no calls and empty tabs. How Streamlit shows a raised exception is not modelled.
- The `expected_output` texts of the tasks (`app.py:146`, `165`, `186`) are sent to the model by `kickoff()`. Like the agents' goals and backstories, they are fixed for each phase, so they reach `backend` through the `Phase` tag of the `Call` and are not written out.
- Prompts: the lemmas cover the slots where the results are filled in and the exact fixed text. They do not cover what the fixed text asks the model to do: a language model need not comply.
