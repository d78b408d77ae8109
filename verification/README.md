# Verified models of Symbiont's decision and text-handling cores

Symbiont is a runtime for policy-governed agents, written in Rust. This project models seven of its
cores in Dafny and proves what they promise. `dafny verify dfyconfig.toml` checks everything.

| modules | what they model |
|---|---|
| `ApprovalTypes`, `ApprovalProtocol`, `ApprovalSteps`, `ApprovalSafety`, `ApprovalRace`, `ApprovalRuns`, `ApprovalRecords`, `ApprovalCauses`, `ApprovalProgress`, `ApprovalWitnesses`, `ApprovalRelay` | The approval relay: one request raced between a terminal prompt and a Slack button, over a shared pending map and one-shot channels. `ApprovalProtocol.Next` is one stretch of code between two suspension points; a run is any list of such stretches over any number of requests, request ids colliding or not. `ApprovalRelay.RelayRuntime` is the same protocol as an object that is updated in place. |
| `DslLexer`, `DslTree`, `DslParser`, `DslSpans`, `DslSound`, `DslRelex`, `DslRoundTrip`, `DslFormat`, `DslLosses`, `DslComments`, `DslPrinter` | The source formatter: lexemes, the structural layer of the grammar as a reference parser, the printer, and the proof that printing and parsing fit together on text. |
| `DslGrammar`, `DslBrackets`, `DslSpelling`, `DslAcceptance`, `DslTokens`, `DslLayout`, `DslExamples` | The same without a parser, a lexer or a printer: which lexemes a source has, which lexemes spell which program, and which text a program is laid out as; with the proof that the formatter does exactly that. |
| `MarkedText`, `AgentsMd`, `AgentsTable`, `KeywordBlocks` | The generated section of AGENTS.md, reading its table back, and the brace-matching block finder. |
| `CivilDate`, `Timestamp`, `CanonicalJson`, `PinStore` | Schema pinning: the calendar algorithm, the timestamp, key-order canonicalisation, and the trust-on-first-use pin store with its commands. |
| `SyntaxTree`, `Listings`, `DslStatements`, `DslSchedules`, `DslWebhooks`, `DslChannels` | The depth-bounded extractors of schedule, webhook and channel definitions and of metadata, against what the nodes of a tree state, place by place. |
| `PolicyText`, `PolicyLayouts`, `PolicyErrors`, `ToolTemplate`, `ToolTemplateTexts`, `ToolCommand`, `ToolTemplateOrder` | The line-oriented policy parser, and command templates filled by sequential replacement. |
| `ExecutionMonitor` | The bounded trace log, the running statistics and the table of active executions. |
| `Text` | Trimming, case folding, searching: what the code takes from its standard library. |

Where the code works by changing things, the model is a method with the same loop or a class with the
same fields, and its `ensures` ties it to a specification function or to a ghost history; the
properties are lemmas about those.

## Where the code and its documentation differ

The model follows the code.

- `docs/security-model.md` says that both channels must agree and that a deadline denies a request on
  its own. The code takes the first answer, has no timer, and checks `expires_at` only for a button press:
  `ApprovalWitnesses.LateYesApproves` and `ApprovalWitnesses.SlackMayDisagree` are runs that show it, and
  `ApprovalCauses.LateApprovalExactly` and `ApprovalCauses.MessageDisagreesExactly` say exactly when it happens.
- The header of `src/commands/schemapin.rs` gives exit code 2 for a changed entry. `verify` exits with 1 for
  every failed server and with 2 only when the configuration cannot be loaded (`PinStore.VerifyExitCodes`).
- The policy parser's error message asks for a `policy <name>` header; the code also accepts a name that
  follows the keyword without a blank.
- The formatter's own description says that an empty `with` block becomes `{` and `}`. So does one of which nothing
  is left once the braces at its two ends and then white space are stripped: `{{ }}` becomes empty, which changes
  what the block says, while `{ {} }` is echoed (`DslFormat.TokensSurvive`, and `DslLosses.NestedBracesAreLost` for
  sources that show it).
- The formatter is meant to echo what it does not lay out. A comment between the elements of a capabilities array is
  joined into the printed line, where it comments out the rest of it (`DslComments.CommentSwallowsBracket`).

## Properties that hold only under a condition

- Merging generated sections is last-writer-wins, and the section reads back, exactly for files with neither
  marker or with the first start marker before the first end marker, and for sections that hold no end marker
  inside. Nothing in a section is escaped, so an agent whose description is the end marker breaks both
  (`AgentsMd.MarkerAsDescription`).
- `civil_from_days` returns the right date exactly when its year fits 32 bits.
- A delivered approval is made after the request's expiry exactly when the terminal gave it and read its yes
  after that instant.
- A request is denied in nobody's name exactly when its prompt panicked and the terminal branch won, or the Slack
  branch won after the post was rejected or after another request with the same id dropped its sender. With an id
  of its own, that takes a panic or a failed post.
- A message that was rewritten for a request with an id of its own shows something else than what was delivered
  exactly when a callback took its entry, made another decision, and lost against the terminal branch.
- For sources with comments only at the top level, between metadata pairs and between agent items: formatting keeps
  every significant lexeme exactly for those without an empty agent parameter list and without a `with` body that is
  more than one pair of braces and of which nothing is left once the braces at its ends and then white space are
  stripped.
- A printed capabilities declaration splits into what was printed exactly if no child of the array is a comment.
- Some run of the pin commands makes all listed servers verify exactly when some are listed and those whose names
  share a pin file have entries that differ in member order only.
- Two entries of a map, with keys without braces, give one command in either order, whatever the text of the
  template, exactly when one of them replaces a placeholder by itself, or neither value overlaps the other's
  placeholder. A value overlaps a placeholder if one holds the other or an end of one is a start of the other; one
  without braces does so exactly if it occurs in the key. The template `{{a}}` with the value `b` for `a` shows
  what happens otherwise (`ToolTemplateTexts.NestedOrderMatters`).
- If only templates are meant in which every opening brace starts a placeholder, the condition is that one of the two
  replaces a placeholder by itself, or neither value completes the placeholder of the other key.
- With values that overlap no placeholder, building a command is independent of map iteration order, whatever the
  text of the template, exactly when the mappings that apply agree on `{_scan_flags}`, or the text does not hold that
  placeholder, or it has a default. With values that only complete no placeholder, the same is exact for templates
  whose literals cannot be mistaken for a placeholder.
- A policy rule is read back from its line exactly when its first ` when ` is the one before its condition,
  its target does not end in white space and its condition is trimmed; a policy, exactly when in addition its name
  is trimmed, it has a rule, and nothing in it has a line break.
- The agents table reads back as the names and descriptions it was made from exactly if no name holds a backtick and
  nothing in it holds a line break.
- The monitor's average is the floored mean while fewer than 2^32 executions have ended; at every multiple of
  2^32 the division panics.

## Model

| member | source | states |
|---|---|---|
| ApprovalTypes.PromptSync | crates/approval-relay/src/cli.rs:59-106 | The prompt's decision carries the request's id, is made by the terminal user, never is `Expired`, and has a reason exactly when it does not approve |
| ApprovalTypes.PromptApprovesExactly | crates/approval-relay/src/cli.rs:84-96 | Only a line that is `y` or `yes` in any case with white space around it approves; every other line and every read error denies |
| ApprovalProtocol.CliDecision | crates/approval-relay/src/dispatcher.rs:96-118 | The terminal branch answers its own request, never with `Expired` and never in Slack's name, also when the prompt task panicked |
| ApprovalRelay.RelayRuntime.HandleOne | crates/approval-relay/src/dispatcher.rs:29-63 | A received request is logged and starts its prompt and, with Slack on, its post |
| ApprovalRelay.RelayRuntime.PostReturns | crates/approval-relay/src/slack_relay.rs:42-75 | A failed post drops the sender, a successful one is logged; nothing else changes |
| ApprovalRelay.RelayRuntime.InsertPending | crates/approval-relay/src/slack_relay.rs:76-92 | The entry goes under its id; an entry that it replaces loses its sender and is recorded as removed |
| ApprovalRelay.RelayRuntime.HandleCallback | crates/approval-relay/src/slack_relay.rs:97-110 | A callback takes the entry of its id out of the map; without an entry nothing changes, the audit log included |
| ApprovalRelay.RelayRuntime.FinalizeFromPress | crates/approval-relay/src/slack_relay.rs:129-162 | The callback rewrites the message of the entry that it took, with its own outcome |
| ApprovalRelay.RelayRuntime.SendFromPress | crates/approval-relay/src/slack_relay.rs:132-165 | The callback's decision reaches the channel of its entry exactly if somebody still listens |
| ApprovalRelay.RelayRuntime.CliBranchWins | crates/approval-relay/src/dispatcher.rs:96-118 | The terminal branch fixes the decision and drops the channel's receiver |
| ApprovalRelay.RelayRuntime.SlackBranchWins | crates/approval-relay/src/dispatcher.rs:119-131 | The Slack branch takes what the channel carries, or denies if its sender is gone |
| ApprovalRelay.RelayRuntime.TakeChannelTs | crates/approval-relay/src/slack_relay.rs:169-173 | The terminal branch removes the entry under the request's id, if there is one, and its sender with it; whatever the decision, the entry's message is the next thing it rewrites |
| ApprovalRelay.RelayRuntime.FinalizeResolution | crates/approval-relay/src/slack_relay.rs:176-219 | One attempt to rewrite one message, logged as finalised or as an error |
| ApprovalRelay.RelayRuntime.Append | crates/approval-relay/src/audit.rs:127-153 | The audit log grows at its end by one event |
| ApprovalRelay.RelayRuntime.Respond | crates/approval-relay/src/dispatcher.rs:54-63 | The logged decision is sent once and ends the task |
| ApprovalRelay.RelayRuntime.Step | crates/approval-relay/src/dispatcher.rs:29-135 | Every stretch of code, run on the object, does what one step of the protocol says |
| ApprovalRelay.RunSchedule | crates/approval-relay/src/dispatcher.rs:141-150 | Under any schedule the object ends in the protocol's state; its log and its message updates are complete and true; whatever it delivers as approved has a human cause, each finished request is answered once and an unfinished one never, and each entry is taken out at most once |
| ApprovalSafety.InvNext | crates/approval-relay/src/slack_relay.rs:42-219 | Every step keeps the invariant on senders, entries, removals, decisions, deliveries, audit and message updates |
| ApprovalRuns.RunGood | crates/approval-relay/src/dispatcher.rs:29-135 | Every reachable state satisfies every invariant, for any number of requests and any ids |
| ApprovalRuns.ApprovalsHaveAHumanCause | crates/approval-relay/src/dispatcher.rs:96-131 | A delivered approval has a yes on the terminal for that request, or an approve press that took that request's entry no later than its expiry |
| ApprovalRuns.ExactlyOneDelivery | crates/approval-relay/src/dispatcher.rs:29-63 | A finished request was answered exactly once, under its own id, with a decision that is in the audit log; an unfinished one never |
| ApprovalRuns.HistoryIsFinal | crates/approval-relay/src/audit.rs:127-153 | Later steps only append: the audit log, removals, updates and deliveries so far stay as they are |
| ApprovalRuns.DeliveredForEver | crates/approval-relay/src/dispatcher.rs:54-63 | No later post, callback or terminal answer changes a delivery or adds a second one |
| ApprovalRuns.RemovalsAreRecorded | crates/approval-relay/src/slack_relay.rs:104-110 | A step leaves the removal history alone exactly when no entry leaves the map or is replaced |
| ApprovalRuns.EntriesAreConsumedOnce | crates/approval-relay/src/slack_relay.rs:82-173 | An inserted entry is in the map or was removed, never both and at most once; its message is rewritten at most once, by the remover and with the remover's outcome |
| ApprovalRecords.RunRecorded | crates/approval-relay/src/audit.rs:127-153 | Over every run the log and the message updates are complete and true: every start, post, failed post, logged decision and rewriting has its event, every event tells what has happened, and there are no more of them |
| ApprovalRecords.TerminalTakesEntry | crates/approval-relay/src/dispatcher.rs:96-118 | With Slack on, a request decided on the terminal has looked for the entry under its id, and none is left there; if there was one, its message has been rewritten with that decision's outcome |
| ApprovalRecords.TerminalRewritesMessage | crates/approval-relay/src/dispatcher.rs:107-118 | Once the terminal branch is past the rewriting, every message whose entry it took has been rewritten, whatever the outcome, and how that went is in the log |
| ApprovalRecords.CallbackRewritesMessage | crates/approval-relay/src/slack_relay.rs:129-162 | The same for a callback that has finalised |
| ApprovalRecords.RewritingIsLogged | crates/approval-relay/src/slack_relay.rs:176-219 | The terminal's rewriting logs at once, and for ever, the finalised outcome if Slack took it and an error otherwise |
| ApprovalRecords.CallbackIsLogged | crates/approval-relay/src/slack_relay.rs:176-219 | So does a callback's |
| ApprovalRace.RaceNext | crates/approval-relay/src/dispatcher.rs:96-131 | Every step keeps what the race says: who won and with which decision, what arrived on the channel, and for whom an entry was taken away |
| ApprovalRuns.PressAgreesExactly | crates/approval-relay/src/dispatcher.rs:96-131 | The record of a callback that has sent is the delivered one exactly when the Slack branch won the race |
| ApprovalCauses.LateApprovalExactly | crates/approval-relay/src/cli.rs:84-106 | A delivered approval is later than the request's expiry exactly when the terminal gave it and read its yes after that instant |
| ApprovalCauses.SystemDenialExactly | crates/approval-relay/src/dispatcher.rs:96-131 | A delivered decision is made by nobody exactly when the prompt panicked and the terminal branch won, or the Slack branch won and the post was rejected or another request with the same id dropped the sender; then it denies |
| ApprovalCauses.UniqueIdDenialExactly | crates/approval-relay/src/dispatcher.rs:96-131 | With an id that no other request has, that is exactly a panicked prompt with the terminal branch the winner, or a rejected post with the Slack branch the winner |
| ApprovalCauses.UniqueIdsAreAnswered | crates/approval-relay/src/dispatcher.rs:79-131 | With an id that no other request has, a decision made by nobody means that the prompt panicked or the post failed during the run |
| ApprovalCauses.MessageShows | crates/approval-relay/src/slack_relay.rs:129-219 | A rewritten message shows the outcome of the callback that took the entry, which is the delivered one if the Slack branch won, or of the terminal branch of a request with the same id |
| ApprovalCauses.MessageDisagreesExactly | crates/approval-relay/src/dispatcher.rs:96-118 | With an id of its own, a request's message shows something else than was delivered exactly when a callback rewrote it, decided otherwise, and the terminal branch won |
| ApprovalProgress.NoTaskIsStuck | crates/approval-relay/src/dispatcher.rs:66-135 | A started request can be finished by its own steps, unless its prompt is still open and, with Slack on, its post is under way or its sender is in the map or with a callback |
| ApprovalProgress.TerminalCanFinish | crates/approval-relay/src/dispatcher.rs:36-63 | Whatever the terminal answers, and whatever Slack does, a started request can be finished from there |
| ApprovalProgress.ButtonCanDecide | crates/approval-relay/src/slack_relay.rs:97-166 | While no callback has taken the entry of a waiting request, one button press without a word from the terminal can decide it: as the button says in time, as expired afterwards |
| ApprovalProgress.CallbackCanDecide | crates/approval-relay/src/slack_relay.rs:104-166 | A callback that has taken the entry of a waiting request can decide it by its own steps |
| ApprovalProgress.SlackCanFinish | crates/approval-relay/src/dispatcher.rs:66-135 | With Slack on, every started request can be finished without a word from the terminal |
| ApprovalWitnesses.SlackMayDisagree | crates/approval-relay/src/dispatcher.rs:96-118 | For every request there is a run that delivers a denial while the message and the audit log say approved |
| ApprovalWitnesses.LateYesApproves | crates/approval-relay/src/cli.rs:59-106 | For every request there is a run in which a yes after its expiry approves it |
| ApprovalWitnesses.CollisionDenies | crates/approval-relay/src/slack_relay.rs:82-92 | With colliding ids a request can be denied although nobody answered |
| DslLexer.LexStable | crates/dsl/tree-sitter-symbiont/grammar.js:16-21 | Splitting a source into lexemes loses no character, and no lexeme runs into the next |
| DslLexer.LexFlat | crates/dsl/tree-sitter-symbiont/grammar.js:505-521 | A list of lexemes that do not run into each other is what its text splits into |
| DslTokens.ValidExactly | crates/dsl/tree-sitter-symbiont/grammar.js:505-521 | The lexemes are exactly the white space, names and numbers, comments, strings, URL heads and punctuation marks of the grammar, each as long as it can be |
| DslTokens.LexExactly | crates/dsl/tree-sitter-symbiont/grammar.js:16-21 | A source splits into its only list of well-formed lexemes of which no one runs into the next |
| DslBrackets.BracketedExactly | crates/dsl/tree-sitter-symbiont/grammar.js:495-503 | The scan for a closing bracket ends exactly at the bracket that the balanced grammar pairs with the opening one |
| DslBrackets.ValueExactly | crates/dsl/tree-sitter-symbiont/grammar.js:51-58 | The value of a pair is taken exactly if it is a name, a number, a duration, a string, an array or, where one may stand, a record |
| DslBrackets.ElemExactly | crates/dsl/tree-sitter-symbiont/grammar.js:495-503 | An array element is taken exactly if it is balanced and has neither white space nor comments at its ends |
| DslBrackets.TypeExactly | crates/dsl/tree-sitter-symbiont/grammar.js:233-240 | A type is taken exactly if it is a name, or one that is not built in with type arguments behind it |
| DslSpelling.ParamExactly | crates/dsl/tree-sitter-symbiont/grammar.js:219-240 | A parameter is taken exactly if it is a name, a colon and a type, with any white space between them |
| DslSpelling.VerbatimExactly | crates/dsl/tree-sitter-symbiont/grammar.js:84-221 | A definition is echoed exactly if it is what stands up to a pair of braces and that pair, or a type definition |
| DslAcceptance.ParsesExactly | crates/dsl/tree-sitter-symbiont/grammar.js:24-82 | A list of lexemes parses as a program exactly if it spells that program: its parts in order, any white space between them, and every optional comma there or not |
| DslSpans.InsideLocal | crates/dsl/tree-sitter-symbiont/grammar.js:495-503 | Where an array element or a bracket ends does not depend on what follows |
| DslSpans.ParamLocal | crates/dsl/tree-sitter-symbiont/grammar.js:219-240 | Nor does the end of a parameter, unless type arguments follow |
| DslSpans.VerbatimLocal | crates/dsl/tree-sitter-symbiont/grammar.js:84-221 | Nor does the end of an echoed definition |
| DslSound.EntriesSound | crates/dsl/tree-sitter-symbiont/grammar.js:51-58 | A parsed metadata block holds exactly the keys, separators, values and comments of the source, in order |
| DslSound.AgentSound | crates/dsl/tree-sitter-symbiont/grammar.js:60-82 | A parsed agent definition holds exactly the source's name, parameters, return type and items, in order |
| DslSound.ParseSound | crates/dsl/tree-sitter-symbiont/grammar.js:24-37 | The tree says every significant lexeme of the source, in order, and nothing else |
| DslRelex.PrintedLexesBack | crates/dsl/src/format.rs:90-338 | The printed text splits into exactly the printed lexemes, so no echoed span is broken or joined |
| DslRoundTrip.EntriesBack | crates/dsl/src/format.rs:138-182 | Printed metadata entries parse back to themselves |
| DslRoundTrip.CapabilitiesBack | crates/dsl/src/format.rs:247-275 | A printed capabilities declaration parses back to itself |
| DslRoundTrip.WithBack | crates/dsl/src/format.rs:277-331 | A printed `with` block parses back to its attributes and its body, a hollow body as the empty one |
| DslRoundTrip.AgentBack | crates/dsl/src/format.rs:184-245 | A printed agent parses back to itself, an empty parameter list as none |
| DslRoundTrip.ParsePrinted | crates/dsl/src/format.rs:90-120 | A printed program parses back to its canonical tree |
| DslFormat.RoundTrip | crates/dsl/src/format.rs:32-50 | For every source that parses, the formatted text parses to the canonical form of the source's tree |
| DslFormat.FormatIdempotent | crates/dsl/src/format.rs:32-50 | Formatting twice is formatting once, for every text at all |
| DslFormat.FormatDependsOnTree | crates/dsl/src/format.rs:1-20 | Two sources are formatted alike exactly when their trees have the same canonical form |
| DslLayout.FormatLaysOut | crates/dsl/src/format.rs:32-331 | A source that spells a program becomes that program's laid-out text, line by line and indent by indent, and any other source stays as it is |
| DslLayout.HollowExactly | crates/dsl/src/format.rs:277-313 | A `with` body is laid out as empty exactly if its text is opening braces, white space and closing braces |
| DslExamples.PairIsLaidOut | crates/dsl/src/format.rs:138-182 | A metadata block with one pair, without white space and without a comma, is laid out on three lines, whatever the names |
| DslFormat.ItemsAreSpaced | crates/dsl/src/format.rs:12-16 | Neighbouring items stand on lines of their own, one blank line between them unless the first is a comment |
| DslFormat.TokensSurvive | crates/dsl/src/format.rs:90-331 | For sources that parse, hence with comments only at the top level, between metadata pairs and between agent items: everything but white space and commas survives in order, exactly without an empty agent parameter list and without a `with` body that is more than one pair of braces and of which nothing is left once the braces at its ends and then white space are stripped |
| DslLosses.EmptyParametersAreLost | crates/dsl/src/format.rs:184-245 | Whatever its name, an agent with an empty parameter list parses, and formatting drops lexemes of it |
| DslLosses.NestedBracesAreLost | crates/dsl/src/format.rs:277-313 | Whatever its name, an agent whose `with` body is braces in braces parses, and formatting drops the inner pair |
| DslComments.CommentSwallowsLine | crates/dsl/src/format.rs:247-275 | Printed behind well-formed elements, a comment child of the array takes in the rest of its line, whatever children follow |
| DslComments.CommentSwallowsBracket | crates/dsl/src/format.rs:247-275 | Unless a later child has a line break, what it takes in is all later children and the closing bracket |
| DslComments.JoinedLexesBackExactly | crates/dsl/src/format.rs:247-275 | The printed declaration splits into what was printed exactly if no child of the array is a comment |
| DslPrinter.SpanTrimmed | crates/dsl/src/format.rs:177-182 | Trimming an echoed span changes nothing |
| DslPrinter.PrintMetadataPair | crates/dsl/src/format.rs:157-182 | Pushes key, separator and value of one pair |
| DslPrinter.PrintMetadataBlock | crates/dsl/src/format.rs:138-155 | Pushes the whole block, a line per pair or comment |
| DslPrinter.PrintCapabilities | crates/dsl/src/format.rs:247-275 | Pushes the declaration with its elements on one line |
| DslPrinter.FormatWithAttribute | crates/dsl/src/format.rs:315-331 | Is the printed form of one attribute |
| DslPrinter.PrintWithBlock | crates/dsl/src/format.rs:277-313 | Pushes attributes and body, the empty form for a hollow body |
| DslPrinter.PrintAgentBody | crates/dsl/src/format.rs:220-232 | The loop with its previous kind pushes exactly the printed items, a blank line after everything but comments |
| DslPrinter.PrintAgentDefinition | crates/dsl/src/format.rs:184-235 | Pushes the printed agent |
| DslPrinter.PrintProgramText | crates/dsl/src/format.rs:90-102 | The top-level loop pushes exactly the printed program |
| DslPrinter.FormatSource | crates/dsl/src/format.rs:32-50 | The formatter as written: the laid-out text of every program that the input's lexemes spell, and the input itself if they spell none |
| AgentsMd.BuildGeneratedSection | src/commands/agents_md.rs:139-334 | The generated section is the start marker, the agents table with one row per agent, the other parts in order, and the end marker, each marker on a line of its own |
| AgentsMd.JoinedAt | src/commands/agents_md.rs:158-334 | Every other part stands whole in the section, behind those before it and before those behind it |
| AgentsMd.MarkersAreMarkers | src/commands/agents_md.rs:5-6 | The two markers cannot overlap each other or themselves |
| AgentsMd.LastMergeWins | src/commands/agents_md.rs:337-356 | Merging a section and then any text is merging the second text alone, exactly for files with neither marker or with the first start marker before the first end marker, and for sections without an end marker inside |
| AgentsMd.MergeThenExtract | src/commands/agents_md.rs:360-368 | The section read back after a merge is the trimmed inside of what was merged, exactly for the same files and sections |
| AgentsMd.BodyHoldsEndExactly | src/commands/agents_md.rs:139-157 | The generated section holds an end marker inside exactly if an agent's name or shown description, or another part, holds one: the cells around them cannot complete one |
| AgentsMd.RegenerationExactly | src/commands/agents_md.rs:337-356 | Generating again leaves nothing of the earlier section behind exactly for a mergeable file and if no name, description or other part of it held an end marker |
| AgentsMd.MarkerAsDescription | src/commands/agents_md.rs:149-156 | With an agent described by the end marker, the next merge leaves something behind, whatever the file and whatever is merged |
| AgentsMd.MergeKeepsTheRest | src/commands/agents_md.rs:337-356 | With the markers in order, everything outside the block is kept character for character |
| AgentsMd.MergeCutsOut | src/commands/agents_md.rs:337-352 | With both markers anywhere, the text before the first start marker and the text behind the first end marker and its line break are kept; with the end marker first, what is between them appears twice |
| AgentsMd.MergeAppends | src/commands/agents_md.rs:352-355 | Without one of the markers the section goes on the line after the file's last character that is not white space |
| AgentsTable.TableBackExactly | src/commands/agents_md.rs:144-156 | The agents table, read line by line, gives back every agent's name and its description (its quoted metadata value, else what its source says, else a dash) exactly if no name has a backtick and nothing has a line break |
| AgentsTable.RowBackExactly | src/commands/agents_md.rs:155 | One row gives back its name and description exactly if the name has no backtick |
| MarkedText.MarkersApart | src/commands/agents_md.rs:360-368 | Two marker occurrences never overlap, so the slice between them is in bounds |
| KeywordBlocks.MatchBrace | src/commands/agents_md.rs:616-640 | The loop over `depth` finds the matching brace, or says that there is none |
| KeywordBlocks.ContentBalanced | src/commands/agents_md.rs:616-650 | Inside a block the running depth never goes below zero and ends at zero |
| KeywordBlocks.FindKeywordBlocks | src/commands/agents_md.rs:559-650 | Terminates on every source and reports disjoint blocks in source order: the keyword as a word of its own outside a comment, then white space only or one word between white space, which is the name, then a brace and its match; for a keyword that is a word it misses none |
| KeywordBlocks.HeaderExactly | src/commands/agents_md.rs:592-621 | A block's name and opening brace are read exactly as the characters between keyword and brace have it: white space alone gives the keyword, one whole word between white space gives that word |
| KeywordBlocks.InCommentExactly | src/commands/agents_md.rs:585-590 | A keyword is skipped exactly if two slashes stand before it on its line with only white space before them |
| KeywordBlocks.ReportedText | src/commands/agents_md.rs:623-650 | A reported text is what the source has between the block's two braces, and it is balanced |
| KeywordBlocks.ReportDetermined | src/commands/agents_md.rs:559-650 | For a keyword that is a word, what the finder promises determines its result |
| CivilDate.CivilUncastCorrect | src/commands/schemapin.rs:385-397 | Before the cast the date is valid and lies exactly the given number of days from 1970-01-01 |
| CivilDate.CivilFromDaysCorrect | src/commands/schemapin.rs:385-397 | The result is the valid Gregorian date at that distance, and the only one, exactly for the day numbers of the years that fit 32 bits |
| CivilDate.YearOfEraBounds | src/commands/schemapin.rs:387-391 | The year of the era is the last one that starts on or before the day, so no unsigned subtraction goes below zero |
| CivilDate.DayNumberInjective | src/commands/schemapin.rs:385-397 | The date at a given distance is unique |
| CivilDate.CivilFromDaysSteps | src/commands/schemapin.rs:385-397 | Consecutive day numbers give consecutive calendar days |
| CivilDate.CivilEpoch | src/commands/schemapin.rs:385-397 | Day zero is 1970-01-01 |
| CivilDate.DaysOfYears | src/commands/schemapin.rs:385-397 | The day numbers of a span of years are those between the first days of its first year and of the one after its last |
| Timestamp.FieldsRecombine | src/commands/schemapin.rs:369-383 | For the years 0 to 9999 the printed fields recombine to the instant |
| Timestamp.TimestampShape | src/commands/schemapin.rs:369-383 | A timestamp has twenty characters with the separators in their places |
| Timestamp.TimestampReadsBack | src/commands/schemapin.rs:369-383 | Its other fourteen characters are digits, and read as decimal numbers they name the instant it was printed for |
| Timestamp.TimestampExactly | src/commands/schemapin.rs:369-383 | It is the only text in the date-time format that names the instant |
| Timestamp.TimestampOrder | src/commands/schemapin.rs:369-383 | An earlier instant has the lexicographically smaller text |
| CanonicalJson.CanonDecidesSame | src/commands/schemapin.rs:319-335 | Two values have the same canonical form exactly when they differ only in member order at any depth |
| CanonicalJson.BeforeExactly | src/commands/schemapin.rs:322-323 | A key comes before another exactly if it is a proper beginning of it, or has the smaller character where they first differ |
| CanonicalJson.CanonIdempotent | src/commands/schemapin.rs:319-335 | The canonical form is ordered at every depth, says the same as the value, and is its own canonical form |
| CanonicalJson.SortedUnique | src/commands/schemapin.rs:322-324 | Sorting leaves no choice: sorted members with distinct keys are determined by what they are |
| CanonicalJson.Canonicalize | src/commands/schemapin.rs:319-335 | Sorting the keys and inserting each member's canonical value computes the canonical form |
| PinStore.SharedFile | src/commands/schemapin.rs:345-359 | Two servers share a pin file exactly when their names agree but for characters that are neither letters nor digits nor hyphens |
| PinStore.Tool.PinServer | src/commands/schemapin.rs:140-230 | The pin files after `pin`; it exits with 0 exactly when its server verifies afterwards, and a forced one was written, and with 2 otherwise |
| PinStore.Tool.VerifyServers | src/commands/schemapin.rs:52-138 | The loop over the servers exits as if all were checked; the files stay as they are |
| PinStore.Tool.UnpinServer | src/commands/schemapin.rs:275-293 | The pin files after `unpin`; it exits with 0 exactly when its file was there and is gone, with 1 exactly when there was none, and with 2 otherwise |
| PinStore.PinSucceedsExactly | src/commands/schemapin.rs:174-230 | A pin exits with 0 or 2, and with 0 exactly when the record it leaves carries the live hash: the old readable one unless forced, else a new one with name, hash and time |
| PinStore.PinCodeOverRuns | src/commands/schemapin.rs:140-230 | After any run, a pin succeeds exactly when its file is then last written, and whole, for an entry that differs from the live one in member order only, and a forced pin was written |
| PinStore.UnpinCodes | src/commands/schemapin.rs:275-293 | The three exit codes of `unpin`, and that it touches no other file |
| PinStore.PinKeepsReadable | src/commands/schemapin.rs:174-199 | Pinning without `--force` never changes a readable record |
| PinStore.FailedPin | src/commands/schemapin.rs:206-222 | A pin that fails makes no record readable that was not; it loses a readable one exactly when it was forced and its write was cut short |
| PinStore.FilesHaveWriters | src/commands/schemapin.rs:174-222 | After any run a pin file exists exactly if some command wrote it last, and it holds that command's record, or none if the write was cut short |
| PinStore.VerifySucceedsExactly | src/commands/schemapin.rs:80-131 | After any run, verifying a server succeeds exactly when it has a live entry and its file was last written, and whole, for an entry that differs in member order only |
| PinStore.VerifyAllExactly | src/commands/schemapin.rs:52-138 | After any run, verifying all listed servers succeeds exactly when some are listed and the file of each was last written, and whole, for an entry that differs from its own in member order only |
| PinStore.VerifiableExactly | src/commands/schemapin.rs:52-138 | Some run makes all listed servers verify exactly when some are listed and those that share a pin file have entries that differ in member order only |
| PinStore.FirstUseStands | src/commands/schemapin.rs:174-199 | A record stands through every run without a forced pin or an unpin of its file |
| PinStore.VerifyExitCodes | src/commands/schemapin.rs:52-138 | Exit code 2 means that the configuration did not load, 0 that every listed server verified |
| SyntaxTree.Traverse | crates/dsl/src/lib.rs:393-472 | The bounded traversal succeeds exactly when no node is too deep and every visited node is valid; it then has appended the definitions in preorder, and its errors are real ones |
| DslStatements.PreorderListed | crates/dsl/src/lib.rs:393-472 | The nodes that the traversal visits are those at the places of the tree, each once, a node before what is below it and children from left to right |
| DslStatements.HeightExactly | crates/dsl/src/lib.rs:393-405 | A tree is within a depth bound exactly if no place in it is longer |
| DslStatements.LastReads | crates/dsl/src/lib.rs:420-440 | A field that is overwritten property by property holds the value of the latest statement of its key, and nothing exactly if there is none |
| Text.TrimQuotesExactly | crates/dsl/src/lib.rs:424-426 | Trimming quotes gives the only text without quotes at its ends that quotes were put around |
| DslSchedules.ScheduleValidExactly | crates/dsl/src/lib.rs:406-456 | A schedule node is accepted exactly when it has a name and exactly one of `cron` and `at` |
| DslSchedules.ScheduleExactly | crates/dsl/src/lib.rs:406-456 | A schedule node is read as a schedule exactly if it is named and states one of `cron` and `at`, and then each of `cron`, `at`, `agent`, `policy`, `audit` and `deliver` holds the latest value stated for that key or nothing, the time zone that value or UTC, and it is one-shot exactly if the latest `one_shot` is `true`; it is refused with the fault it has |
| DslSchedules.ExtractSchedule | crates/dsl/src/lib.rs:406-458 | Reading property by property gives what the node states, or the fault it has |
| DslSchedules.ExtractScheduleDefinitions | crates/dsl/src/lib.rs:386-477 | Succeeds exactly for trees within the depth bound whose schedule nodes are all good; the i-th result then is what the i-th schedule node in preorder states; an error is the fault of one of the nodes |
| DslSchedules.TraverseMetadata | crates/dsl/src/lib.rs:205-244 | Nodes below the depth bound are skipped without an error; all other blocks are read in preorder |
| DslSchedules.ExtractMetadata | crates/dsl/src/lib.rs:198-248 | Each key has the latest value that a metadata block within the depth bound states for it, a block's own pairs standing before those of blocks inside it; within the depth bound no block is missed |
| DslWebhooks.ApplyErrorNode | crates/dsl/src/lib.rs:806-829 | In an error node adjacent identifiers are read as key and unquoted value |
| DslWebhooks.ErrorPropertiesAreFlat | crates/dsl/src/lib.rs:806-829 | The pairs of an error node are its property nodes and each identifier that is followed by one and has an even number of identifiers directly before it, in order |
| DslWebhooks.ProviderExactly | crates/dsl/src/lib.rs:687-697 | A provider is read exactly from `github`, `stripe` or `slack` in any case, and is custom otherwise |
| DslWebhooks.WebhookExactly | crates/dsl/src/lib.rs:846-908 | A webhook node is read as a webhook exactly if it is named and states a path, and then path, provider, secret and agent are the latest ones stated, error nodes included, and the filter is what the last filter block states; it is refused with the fault it has |
| DslWebhooks.ExtractWebhook | crates/dsl/src/lib.rs:846-908 | Reading child by child gives what the node states, or the fault it has |
| DslWebhooks.ExtractWebhookDefinitions | crates/dsl/src/lib.rs:753-924 | Succeeds exactly for trees within the depth bound whose webhook nodes all have a name and a path; the i-th result then is what the i-th webhook node in preorder states; an error is the fault of one of the nodes |
| DslChannels.ExtractArrayStrings | crates/dsl/src/lib.rs:987-1003 | Collects the strings at the places of an array, in their order, also from wrapper nodes |
| DslChannels.ChannelExactly | crates/dsl/src/lib.rs:1016-1115 | A channel node is read as a channel exactly if it is named and states a platform, and then its plain fields hold the latest values stated, its channels are the strings of the last array called so, and its rules and classifications are those of all blocks, in order; it is refused with the fault it has |
| DslChannels.ExtractChannel | crates/dsl/src/lib.rs:1016-1115 | Reading child by child gives what the node states, or the fault it has |
| DslChannels.ExtractChannelDefinitions | crates/dsl/src/lib.rs:980-1130 | Succeeds exactly for trees within the depth bound whose channel nodes all have a name and a platform; the i-th result then is what the i-th channel node in preorder states; an error is the fault of one of the nodes |
| PolicyText.ParsePolicyLines | crates/repl-core/src/policy.rs:34-95 | The loop that stops at `end`, skips comments and pushes rules computes `ParsePolicy`, errors included |
| PolicyErrors.PolicyErrorsExactly | crates/repl-core/src/policy.rs:34-138 | Parsing fails exactly for an empty or blank text, a first line without the keyword or without a name, a line before the first `end` that is neither a comment nor a rule, or no rule at all, and says which |
| PolicyText.ActionExactly | crates/repl-core/src/policy.rs:98-138 | Without a condition a line is a rule exactly if its first word is one of the six actions |
| PolicyErrors.NoteExactly | crates/repl-core/src/policy.rs:78-81 | A comment begins with a number sign or with two slashes |
| PolicyErrors.NoTarget | crates/repl-core/src/policy.rs:108-122 | A line without a blank is refused for its missing target |
| PolicyText.RuleParsesBackExactly | crates/repl-core/src/policy.rs:98-138 | A rule is read back from its line exactly when it is renderable |
| PolicyLayouts.PolicyRoundTrip | crates/repl-core/src/policy.rs:34-138 | A renderable policy, in any layout, parses back: indentation, blank lines, comments behind the header and everything behind the first `end` do not matter |
| PolicyLayouts.PolicyParsesBackExactly | crates/repl-core/src/policy.rs:34-138 | Whatever the layout of its text, a policy is read back exactly when it is renderable |
| ToolTemplate.ReplaceFills | src/commands/tools.rs:222-224 | In a template whose literals cannot be mistaken for it, replacing one placeholder fills its holes and touches nothing else |
| ToolTemplate.SequentialIsSimultaneous | src/commands/tools.rs:222-224 | Replacing one key after the other is filling all holes at once, if no value completes the placeholder of a later key |
| ToolTemplate.MapOrderDoesNotMatter | src/commands/tools.rs:222-224 | For templates whose literals cannot be mistaken for a placeholder or the start of one: interpolating a map's entries gives one result for every iteration order, if no value completes another key's placeholder |
| ToolTemplate.SimplePairOrderMattersExactly | src/commands/tools.rs:222-224 | Two entries give one result in either order, for every template in which each opening brace starts a placeholder, exactly when one replaces a placeholder by itself or neither value completes the other key's placeholder |
| ToolTemplate.BracesMakeOrderMatter | src/commands/tools.rs:222-224 | With a value that is another key's placeholder two orders give two results, also on a template with no nested braces |
| ToolTemplateTexts.PairOrderMattersExactly | src/commands/tools.rs:222-224 | Two entries with keys without braces give one result in either order, for every template text, exactly when one replaces a placeholder by itself or neither value overlaps the other's placeholder |
| ToolTemplateTexts.BraceFreeOverlaps | crates/runtime/src/toolclad/validator.rs:11-13 | A value without braces, as most argument types demand it, overlaps a placeholder exactly if it occurs in the key |
| ToolTemplateTexts.PlainPairOrderMattersExactly | src/commands/tools.rs:222-224 | Two entries whose values have no braces give one result in either order, for every template text, exactly when neither value occurs in the other's key |
| ToolTemplateTexts.MapOrderAnyText | src/commands/tools.rs:222-224 | The entries of a map of any size, each two of them as `PairOrderMattersExactly` demands, give one result in every order, for every template text |
| ToolTemplateTexts.PlainMapOrderMattersExactly | src/commands/tools.rs:222-224 | For a map of any size whose values have no braces, the order never matters, whatever the template text, exactly when no value occurs in another entry's key |
| ToolTemplateTexts.NestedOrderMatters | src/commands/tools.rs:222-224 | On a template that puts braces around a placeholder, values without braces are enough to make the order matter, although they commute on templates in which each opening brace starts a placeholder |
| ToolTemplateTexts.SequentialOnAnyText | src/commands/tools.rs:222-224 | Replacing one key after the other puts all values in at once where the template text has the placeholders, for every text, if no value overlaps the placeholder of a later key |
| ToolCommand.ApplyDefaults | src/commands/tools.rs:205-211 | The loop replaces the placeholders of the defaults without a validated argument |
| ToolCommand.ApplyMappings | src/commands/tools.rs:213-220 | The loop replaces an argument's own flags placeholder and the shared one |
| ToolCommand.BuildCommand | src/commands/tools.rs:203-229 | The successive loops replace all bindings in sequence; if nothing in the template or put into it is mistaken for a placeholder, every placeholder shows what is put in for it and nothing else changes |
| ToolCommand.CommandFills | src/commands/tools.rs:203-229 | Each placeholder shows the unquoted default of an argument that is not given, else the flags of the first mapping that has some for its argument's value, else the given argument, else `/dev/null`, `<scan-id>` or `<evidence-dir>` for the three fixed names; others stay |
| ToolTemplateOrder.OrderMattersOnAnyText | src/commands/tools.rs:203-229 | For every template text and values that overlap no placeholder, the built command is independent of the iteration order of the three maps exactly when the mappings agree on the shared placeholder, the text does not hold it, or it has a default |
| ToolTemplateOrder.PlainFarApart | src/commands/tools.rs:203-229 | Values without braces overlap no placeholder exactly if none of them occurs in a key |
| ToolTemplateOrder.OrderMattersExactly | src/commands/tools.rs:203-229 | The same for templates whose literals cannot be mistaken for a placeholder and values that complete no placeholder |
| ToolTemplateOrder.OrderMattersPlainly | src/commands/tools.rs:203-229 | The same again for templates in which every opening brace starts a placeholder and values without an opening brace |
| ExecutionMonitor.Monitor.AddTrace | crates/repl-core/src/execution_monitor.rs:176-185 | The stored traces stay the last thousand since the last clearing |
| ExecutionMonitor.Monitor.StartExecution | crates/repl-core/src/execution_monitor.rs:98-129 | The execution is in the table and traced, and counted as started; one with the same id counts as replaced |
| ExecutionMonitor.Monitor.EndExecution | crates/repl-core/src/execution_monitor.rs:132-173 | A known execution leaves the table, is traced with its duration and counted once; an unknown one changes nothing |
| ExecutionMonitor.Monitor.UpdateStats | crates/repl-core/src/execution_monitor.rs:387-406 | The statistics stay the reading of all updates; the division panics exactly at multiples of 2^32 |
| ExecutionMonitor.Monitor.LogCapabilityCheck | crates/repl-core/src/execution_monitor.rs:245-265 | The check is traced and counted, and no other statistic changes |
| ExecutionMonitor.Monitor.GetTraces | crates/repl-core/src/execution_monitor.rs:336-344 | The newest traces since the last clearing, at most the limit and at most a thousand |
| ExecutionMonitor.Monitor.GetAgentTraces | crates/repl-core/src/execution_monitor.rs:347-361 | The end of all the agent's traces since the last clearing, all of them if they fit |
| ExecutionMonitor.StatsConserved | crates/repl-core/src/execution_monitor.rs:387-406 | Over any run the total is the number of ended executions and the sum of successes and failures, and durations and behavior counts add up |
| ExecutionMonitor.AverageIsMean | crates/repl-core/src/execution_monitor.rs:396-397 | Below 2^32 ended executions the average is the floored mean duration |
| ExecutionMonitor.AverageSticks | crates/repl-core/src/execution_monitor.rs:396-397 | At a multiple of 2^32 the average stays what it was |
| ExecutionMonitor.AgentWindow | crates/repl-core/src/execution_monitor.rs:347-361 | What the window holds of an agent is the end of what the history holds of it |
| ExecutionMonitor.Conserved | crates/repl-core/src/execution_monitor.rs:98-173 | Started executions are active, replaced, ending or ended, and capability counts are exact |

## Left out

- Slack's HTTP calls and message layout, terminal drawing and file writes are steps that succeed or fail as an argument says; audit appends are taken to succeed.
- SHA-256 and JSON text: the digest is a parameter, injective where a theorem says so. Signatures and UUID generation are not modelled; ids are arbitrary.
- White space, letters and digits are the ASCII ones; the code also takes the other Unicode ones.
- DslParser.ParseItem: the tree-sitter runtime and its error recovery are not modelled; a source either parses or is echoed.
- DslParser.ParseEntry: comments are allowed at the top level, between metadata pairs and between agent items; a source with one elsewhere in the structural layer counts as not parsing here, while the code drops, moves or joins that comment. What joining does to a capabilities declaration is in `DslComments`, for the children of the array as given.
- DslFormat.RoundTrip: speaks of sources that the reference parser takes, which excludes comments elsewhere in the structural layer (see `DslParser.ParseEntry`).
- DslFormat.FormatIdempotent: a source with such a comment is echoed here and rewritten by the code.
- DslPrinter.FormatSource: takes the reference parser for its parse step, with the same exclusion.
- DslSpans.InsideLocal: an array element is any balanced run of lexemes.
- DslSpans.ParamLocal: type arguments are any names, commas and angle brackets in balance.
- DslSpans.VerbatimLocal: the inside of an echoed definition is any balanced run of lexemes.
- DslParser.VerbatimLen: the inside of policies, functions, types, schedules, channels, memories, webhooks, `with` bodies, array elements and records is any balanced run of lexemes, of which the grammar accepts only some.
- DslLexer.First: a number with letters behind it is one lexeme, which no structural position accepts, and `://` behind anything starts a vault URL; the grammar's lexer, which knows its position, would split or join them elsewhere.
- AgentsMd.BuildGeneratedSection: what follows the agents table is given as parts, and the description that the code looks for in an agent's source text as a value.
- The arithmetic of `civil_from_days` is on unbounded integers; overflow of a 64-bit day number by the added constant is not modelled.
- The pending map's operations and the one-shot channels are atomic; code between two suspension points touches no other shared state.
- PinStore.Tool.PinServer: a write that is cut short leaves no readable record, and pin files change only through the commands.
- DslWebhooks.VisitWebhook: memory definitions, `with` blocks, agent names and capability lists have extractors of the same shape and are not modelled; durations and floating-point weights are library-defined.
- ToolCommand.BuildCommand: validating the arguments before, and evening out white space after, are not modelled; the values of defaults are taken as text. Values with braces can come from `agent_summary` arguments, resolved paths, defaults and the flags of mappings; the other argument types reject them.
- ToolTemplate.MapOrderDoesNotMatter: speaks of templates with clear literals; every template text is in `ToolTemplateTexts.MapOrderAnyText`, for values that overlap no placeholder.
- ToolTemplateOrder.OrderMattersOnAnyText: gives no condition for values that do overlap a placeholder; for two entries of one map that is `ToolTemplateTexts.PairOrderMattersExactly`.
- ExecutionMonitor.Monitor.UpdateStats: wrap-around of the 64-bit counters and of the summed duration is not modelled.
- Cedar evaluation, model calls, the reasoning loop, scheduling and the command line are not part of this model.
