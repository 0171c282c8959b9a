# TermFast: verified models of its protocols and engines

TermFast is a terminal for desktop and phone: it watches AI command-line agents in its
tabs, pushes their questions to a phone, tunnels terminals through a relay, and
synchronises an encrypted configuration through a cloud drive. This project models the
parts of it that are state machines, protocols, codecs or planners, and proves what they
keep over every input and every run.

Code that changes things step by step is a class or a method with loops, proved against a
specification function on values; the laws are lemmas about those functions and about
runs of them. Code made of expressions is functions.

- **Agent status** (`AgentStateMachine`, `AgentDriver`, `AgentLaws`, `AgentStepLaws`). One
  `AgentState` is changed by OSC signals, screen readings, PTY output, BEL, a 500 ms
  interval and resets, in any order. A screen reading is an input: blocked, working, done, idle or nothing.
- **Remote question** (`RemoteAnswer`, `AgentToPhone`). The hook that pushes a blocked
  question to the phone and resolves it, as a transition system with a message trace.
- **Text and codecs** (`Base64`, `Base64Laws`, `CanonicalJson`, `CanonicalJsonLaws`,
  `CanonicalJsonText`, `JoinPayload`, `JoinPayloadText`, `StripAnsi`, `Utf16`, `LineScan`).
  Base64 (section 4 of RFC 4648), canonical JSON (RFC 8259) with an independent parser, UTF-8 (RFC 3629), control sequences (section 5.4
  of ECMA-48). JavaScript text is a sequence of 16-bit code units wherever its length matters.
- **Cloud sync** (`CloudSync`, `CloudSyncLaws`, `Rfc3339`). Many devices share one cloud file. An
  upload or a download is one atomic step; passwords, configurations and provider hashes
  are symbolic, and time stamps are texts whose instants are read as section 5.6 of
  RFC 3339 says.
- **OAuth proxy** (`RateLimit`). The sliding-window rate limit and the one-time states.
- **Keystroke plans** (`KeyPlans`). The emitted key strings are read back by a model of a
  terminal dialog, a circular or bounded row with a position, marks and an Enter log.
- **Screen reading** (`ScreenMap`, `DevinOptions`, `DevinOptionsLaws`). The map from text
  positions to cells, and two scanners of Devin's dialog that must agree on an index.
- **Tunnels** (`RemoteFrame`, `TunnelSession`, `TunnelSessionLaws`, `TunnelTasks`). The
  frame format, the phone's session registry and the desktop's answer to a HELLO over
  symbolic ciphers, and the desktop's tasks as steps between awaits.

Where comments in the sources promise more than the code does, the model follows the code:

- A block set by OSC is said to be cleared only by OSC. A working or done screen reading
  also ends it, and a working reading leaves the flag and message behind
  (`AgentLaws.OscBlockStepIff`, `AgentLaws.ScreenClearsOscBlock`).
- A pushed question is not resolved when blocked turns to idle, and the stale reference
  suppresses later pushes (`RemoteAnswer.LeavingResolvesIff`,
  `RemoteAnswer.StuckQuestionSilencesLaterDialogs`, `AgentToPhone.VanishedDialogResolvesIff`).
- A delay on the last step of a key plan delays nothing. Plan Mode answers, Claude Code's
  multi-select and Devin's text answers put their only delay there, so their two steps
  leave together (`KeyPlans.LastDelayIsIgnored`, `KeyPlans.LateDelayPlansHaveNoGap`).
- A handle in the tunnel map does not mean a live task (`TunnelTasks.ActiveIff`,
  `TunnelTasks.DeadHandleExample`).
- The nonces of tunnel frames are meant to be unique across reconnects. They are under
  session keys; every HELLO is sealed under the pairing key at counter 0, so each
  connection of a pairing repeats the nonce of its first frame
  (`TunnelSessionLaws.NonceRepeatsIff`, `TunnelSessionLaws.ReconnectRepeatsHelloNonce`).
- The rollback check falls back to comparing texts when a stamp does not parse, and then
  time can fall (`CloudSyncLaws.DownloadsNeverGoBackIff`,
  `CloudSyncLaws.UnparsedStampLetsTimeFall`).
- An unforced download asks about local edits only while the cloud is unchanged
  (`CloudSyncLaws.UnforcedDownloadAppliesIff`).
- The two scanners of Devin's dialog disagree when a counted line above the cursor is not
  listed (`DevinOptionsLaws.CursorPicksItsOptionIff`, `DevinOptionsLaws.MixedDialogDisagrees`).
- `canonicalJSON` says it prints the text that a backend prints; that backend is not part
  of this model.

`dafny verify dfyconfig.toml` checks the whole project.

## Model

| member | source | states |
|---|---|---|
| `AgentStateMachine.AgentState.constructor` | src/hooks/agentStateMachine.ts:81-94 | a new state: unknown status and CLI, nothing pending, no misses |
| `AgentStateMachine.AgentState.TransitionTo` | src/hooks/agentStateMachine.ts:281-285 | the change time moves only when the status does; no other field changes |
| `AgentStateMachine.AgentState.ScheduleDebounced` | src/hooks/agentStateMachine.ts:288-297 | priority states take effect at once, the others are pending for 500 ms |
| `AgentStateMachine.AgentState.ApplySignal` | src/hooks/agentStateMachine.ts:104-151 | the whole new state for each OSC signal; the CLI is sticky |
| `AgentStateMachine.AgentState.ApplyScreenStatus` | src/hooks/agentStateMachine.ts:160-196 | the whole new state for each screen status; idle never overrides blocked or done |
| `AgentStateMachine.AgentState.ClearScreenBlocked` | src/hooks/agentStateMachine.ts:206-218 | leaves blocked for the given status and resets flag, message, count and multi-select; otherwise nothing |
| `AgentStateMachine.AgentState.NotifyOutput` | src/hooks/agentStateMachine.ts:224-248 | output never leaves blocked, and schedules working only for a known CLI |
| `AgentStateMachine.AgentState.Tick` | src/hooks/agentStateMachine.ts:254-278 | debounce, done-to-idle decay and the silence timeout, in this order |
| `AgentStateMachine.AgentState.Reset` | src/hooks/agentStateMachine.ts:310-319 | the whole state after a reset; the miss count and the multi-select flag stay |
| `AgentDriver.OnOscTitle` | src/hooks/useAgentStatus.ts:231-255 | a title overrides the CLI, and Codex's title blocks |
| `AgentDriver.OnOscSignal` | src/hooks/useAgentStatus.ts:258-289 | the OSC handlers pass their signal to the state machine |
| `AgentDriver.OnBell` | src/hooks/useAgentStatus.ts:295-304 | BEL renews the output time exactly while a known CLI works |
| `AgentDriver.SyncToReact` | src/hooks/useAgentStatus.ts:132-226 | the only field of the state that synchronisation changes is the multi-select flag, while blocked |
| `AgentDriver.CountMiss` | src/hooks/useAgentStatus.ts:370-376 | counts one unconfirmed reading and clears the block at the third |
| `AgentDriver.OnNoPattern` | src/hooks/useAgentStatus.ts:383-446 | the branch for a screen without patterns: miss count, echo correction, shell reset |
| `AgentDriver.OnKnownCli` | src/hooks/useAgentStatus.ts:351-446 | the interval's branching on the screen status |
| `AgentDriver.OnInterval` | src/hooks/useAgentStatus.ts:312-476 | one interval is the tick and then the branching, for a known or an unknown CLI |
| `AgentDriver.AgentRegistry.Register` | src/hooks/useAgentStatus.ts:529-531 | the session gets this state, the others keep theirs |
| `AgentDriver.AgentRegistry.Unregister` | src/hooks/useAgentStatus.ts:542-544 | the session has no state any more, the others keep theirs |
| `AgentDriver.AgentRegistry.NotifyAgentOutput` | src/hooks/useAgentStatus.ts:550-561 | output reaches the session's own state and no other session's |
| `AgentDriver.AgentRegistry.ResetAgentStatus` | src/hooks/useAgentStatus.ts:568-578 | a reset reaches the session's own state and no other session's |
| `AgentLaws.StepKeepsInv` | src/hooks/useAgentStatus.ts:231-476 | every event keeps: only working is pending, only where it can fire, exactly 500 ms after the last output; no CLI means no status; 0 to 2 misses |
| `AgentLaws.EveryReachableState` | src/hooks/agentStateMachine.ts:81-319 | that invariant holds after every interleaving of events |
| `AgentLaws.DebounceFiresAfterSilence` | src/hooks/agentStateMachine.ts:254-259 | when a tick turns a session to working, every output of the run is at least 500 ms old |
| `AgentLaws.WatchedStep` | src/hooks/useAgentStatus.ts:351-397 | one watched event keeps and counts a screen-set block, or is the miss that ends it, with the status it ends in |
| `AgentLaws.AntiFlickerIff` | src/hooks/useAgentStatus.ts:351-397 | a screen-set block survives a run of readings, output and BEL exactly when no three misses fall together without a blocked reading between them |
| `AgentLaws.OscBlockStepIff` | src/hooks/agentStateMachine.ts:109-195 | an OSC-set block is left exactly by a done signal, a working or done reading, or a reset; when its flag and message stay |
| `AgentLaws.OscBlockSurvives` | src/hooks/useAgentStatus.ts:351-446 | through any run of idle or empty readings, output, BEL and time the block, flag and message stay |
| `AgentLaws.ScreenClearsOscBlock` | src/hooks/agentStateMachine.ts:34-38 | a spinner on the screen clears an OSC-set block and leaves flag and message, against the comment |
| `AgentStepLaws.TimeChangesStatusIff` | src/hooks/agentStateMachine.ts:254-278 | what elapsed time alone does: a due session works, done decays after 5 s of silence, working ends after 60 s, nothing else changes |
| `AgentStepLaws.PatternlessReadingIs` | src/hooks/useAgentStatus.ts:383-446 | the whole session after a reading without patterns, if it was not blocked |
| `AgentStepLaws.EchoIsCorrectedIff` | src/hooks/useAgentStatus.ts:398-445 | a working session without patterns ends idle exactly on a drawn screen, unknown exactly at a prompt, working exactly on an empty one |
| `AgentStepLaws.StatusReadingIs` | src/hooks/useAgentStatus.ts:351-382 | the whole session after each status reading, if it was not blocked; the status before the tick is not applied again |
| `AgentStepLaws.DetectionIs` | src/hooks/useAgentStatus.ts:450-476 | a session without a CLI takes the one on the screen, with its status |
| `AgentStepLaws.BlockedSessionReadingIs` | src/hooks/useAgentStatus.ts:351-382 | the whole blocked session after each reading that is not a miss |
| `AgentStepLaws.MissedReadingIs` | src/hooks/useAgentStatus.ts:363-397 | the whole screen-blocked session after a miss: counted twice, ended by the third |
| `AgentStepLaws.SignalIs` | src/hooks/agentStateMachine.ts:104-151 | status, message, flag and CLI after each OSC signal |
| `AgentStepLaws.TitleIs` | src/hooks/useAgentStatus.ts:231-255 | CLI and block after a title |
| `AgentStepLaws.OtherEventIs` | src/hooks/agentStateMachine.ts:224-248 | output schedules working in 500 ms exactly for a known CLI neither blocked nor working; BEL, synchronisation and reset |
| `RemoteAnswer.RemoteAnswerHook.MainEffect` | src/hooks/useAgentRemoteAnswer.ts:173-353 | one effect run: the new refs and the messages sent, in every case |
| `RemoteAnswer.RemoteAnswerHook.ClearPushedQuestionRef` | src/hooks/useAgentRemoteAnswer.ts:122-140 | resolves the pushed question, if any, and forgets it |
| `RemoteAnswer.RemoteAnswerHook.NotifyResolved` | src/hooks/useAgentRemoteAnswer.ts:164-170 | one resolution is sent and no ref changes |
| `RemoteAnswer.RunKeepsInv` | src/hooks/useAgentRemoteAnswer.ts:173-353 | an open question of the trace is always the one in the ref, and pushes never overlap |
| `RemoteAnswer.PushesAlternateWithResolutions` | src/hooks/useAgentRemoteAnswer.ts:184-314 | between two pushes of a session the first was resolved; every push carries a question |
| `RemoteAnswer.PushesAreConserved` | src/hooks/useAgentRemoteAnswer.ts:122-353 | over every run each push was closed, replaced by the next tab, or is in the ref |
| `RemoteAnswer.AtMostOnePush` | src/hooks/useAgentRemoteAnswer.ts:184-314 | without multi-question dialogs and without closing steps at most one push is sent |
| `RemoteAnswer.FirstPushIff` | src/hooks/useAgentRemoteAnswer.ts:184-231 | without a pushed question, a blocked run pushes exactly when the user is away and the question has text; the message's id, question, options and tabs, and the refs |
| `RemoteAnswer.TabPushIff` | src/hooks/useAgentRemoteAnswer.ts:233-276 | with a pushed question, a blocked run sends exactly on a change of tab: the old one resolved without answer, the new one pushed if it has text |
| `RemoteAnswer.ExitIs` | src/hooks/useAgentRemoteAnswer.ts:316-352 | the answer text of each exit from blocked, and the refs afterwards |
| `RemoteAnswer.ClearAndNotifyAre` | src/hooks/useAgentRemoteAnswer.ts:122-170 | clearing resolves without an answer and forgets; a notice is passed on |
| `RemoteAnswer.LeavingResolvesIff` | src/hooks/useAgentRemoteAnswer.ts:316-352 | leaving blocked resolves the pushed question exactly if the new status is not idle |
| `RemoteAnswer.StuckQuestionSilencesLaterDialogs` | src/hooks/useAgentRemoteAnswer.ts:184-352 | with a question in the ref, single-question effect runs send nothing exactly as long as no dialog is left for working, done or unknown |
| `RemoteAnswer.PushedButNeverResolved` | src/hooks/useAgentRemoteAnswer.ts:316-352 | a run in which a pushed question is never resolved |
| `AgentToPhone.VanishedDialogResolvesIff` | src/hooks/useAgentStatus.ts:363-397 | when the third miss ends a screen-set block, the phone's question is resolved exactly if that reading showed no pattern, and stays open if it showed idle |
| `Base64.Encode` | src-tauri/src/credential_manager.rs:183-209 | the index loop writes four characters per group of three bytes, as the specification used by the laws |
| `Base64.DecodeGroup` | src-tauri/src/credential_manager.rs:217-238 | the inner loop reads the values and the padding of one group and yields its bytes, or fails on a foreign character |
| `Base64.Decode` | src-tauri/src/credential_manager.rs:211-242 | the index loop yields the bytes of the specification used by the laws, or fails on a foreign character |
| `Base64.GroupRoundTrip` | src-tauri/src/credential_manager.rs:187-207 | one full or padded group decodes to the bytes it was made from |
| `Base64.RoundTrip` | src-tauri/src/credential_manager.rs:183-242 | decoding undoes encoding for all bytes; the length is 4 per started group of 3 |
| `Base64.AcceptedIff` | src-tauri/src/credential_manager.rs:216-227 | a text is accepted exactly when its complete groups hold only table characters and padding |
| `Base64.CanonicalIsRestored` | src-tauri/src/credential_manager.rs:183-242 | encoding restores an accepted text with trailing padding only and zero unused bits |
| `Base64.EncodedIsCanonical` | src-tauri/src/credential_manager.rs:183-209 | every encoded text is of that form |
| `Base64.EncodingRestoresIff` | src-tauri/src/credential_manager.rs:183-242 | encoding restores an accepted text exactly when it is of that form |
| `Base64Laws.EncodedGroupIs` | src-tauri/src/credential_manager.rs:187-207 | the characters of three, two and one bytes, six bits each, high bits first, with padding |
| `Base64Laws.EncodedConcat` | src-tauri/src/credential_manager.rs:187-194 | encoding goes group by group |
| `Base64Laws.DecodedGroupIs` | src-tauri/src/credential_manager.rs:217-238 | the bytes of any four characters, wherever padding stands |
| `Base64Laws.DecodedConcat` | src-tauri/src/credential_manager.rs:216-240 | decoding goes group by group; what does not fill a group is ignored |
| `CanonicalJsonLaws.SortSorts` | src/lib/joinNetwork.ts:19 | the printed keys are in the order of code units |
| `CanonicalJsonLaws.ParsePlain` | src/lib/joinNetwork.ts:9-23 | the parser reads a printed value off the front of any text that may follow it |
| `CanonicalJsonLaws.ParseUndoesCanonical` | src/lib/joinNetwork.ts:9-23 | a parser recovers the normal form of every value from its canonical text |
| `CanonicalJsonLaws.ParsedIsSame` | src/lib/joinNetwork.ts:9-23 | for values without undefined and functions the recovered value is the printed one up to field order |
| `CanonicalJsonLaws.SameTextIff` | src/lib/joinNetwork.ts:9-23 | two values print the same text exactly when they are the same up to insertion order, at every depth |
| `CanonicalJsonText.ConstantsAre` | src/lib/joinNetwork.ts:10-22 | null, true and false; undefined and functions print as null |
| `CanonicalJsonText.NumberIs` | src/lib/joinNetwork.ts:12 | an integer prints as its sign and decimal digits without a leading zero |
| `CanonicalJsonText.VerbatimIsKept` | src/lib/joinNetwork.ts:13 | a string without controls, quotes, backslashes and surrogates prints as it is between quotes |
| `CanonicalJsonText.UnitIs` | src/lib/joinNetwork.ts:13 | which units have the two-character escape and with which letter, which the long one, and which none |
| `CanonicalJsonText.PairIsKept` | src/lib/joinNetwork.ts:13 | a surrogate pair prints as it is |
| `CanonicalJsonText.PiecesArePrinted` | src/lib/joinNetwork.ts:13 | strings print piece by piece wherever no pair is cut |
| `CanonicalJsonText.ArrayIs` | src/lib/joinNetwork.ts:14-16 | brackets, commas and no white space, item by item |
| `CanonicalJsonText.ObjectIs` | src/lib/joinNetwork.ts:17-21 | braces, colons and commas, the member with the least key first |
| `CanonicalJsonText.LessIff` | src/lib/joinNetwork.ts:19 | keys are ordered by the first code unit in which they differ |
| `JoinPayload.Utf8RoundTrip` | src/lib/joinNetwork.ts:30 | UTF-8 bytes give back every text without lone surrogates |
| `JoinPayload.CanonicalIsWellFormed` | src/lib/joinNetwork.ts:13 | no canonical text holds a lone surrogate, so its UTF-8 loses nothing |
| `JoinPayload.Base64EncodeUtf8` | src/lib/joinNetwork.ts:29-36 | the loop over the bytes gives the base64 text of the UTF-8 bytes |
| `JoinPayload.BuildApproveJoinPayload` | src/lib/joinNetwork.ts:42-59 | the payload is the encoded canonical text of the five fields |
| `JoinPayload.PayloadIsReadable` | src/lib/joinNetwork.ts:42-59 | base64, UTF-8 and JSON decoding give the payload object back |
| `JoinPayload.PayloadBindsIff` | src/lib/joinNetwork.ts:42-59 | two payloads are equal exactly when all five parameters are |
| `JoinPayloadText.PayloadTextIs` | src/lib/joinNetwork.ts:42-56 | the signed text member by member: five names in order, each with its own parameter |
| `JoinPayloadText.UnitBytesAre` | src/lib/joinNetwork.ts:30 | the one, two or three UTF-8 bytes of a unit |
| `JoinPayloadText.PairBytesAre` | src/lib/joinNetwork.ts:30 | the four UTF-8 bytes of a surrogate pair |
| `JoinPayloadText.Utf8Concat` | src/lib/joinNetwork.ts:30 | texts are encoded piece by piece wherever no pair is cut |
| `StripAnsi.StripAnsi` | src/hooks/agentPatterns.ts:16-28 | the six passes, each on the result of the one before, give the text that the laws are about |
| `StripAnsi.PlainIsKept` | src/hooks/agentPatterns.ts:16-28 | text without ESC is unchanged |
| `StripAnsi.StripEveryText` | src/hooks/agentPatterns.ts:16-28 | for every text the result is ESC-free, only leaves characters out, is never longer, and stripping is idempotent |
| `StripAnsi.MatchToken` | src/hooks/agentPatterns.ts:18-25 | at a complete sequence a pass matches the whole sequence or nothing |
| `StripAnsi.MatchIff` | src/hooks/agentPatterns.ts:18-26 | a pass matches at a place exactly where a complete sequence of its kind begins, and then the whole of it; the last pass one ESC |
| `StripAnsi.CharactersAre` | src/hooks/agentPatterns.ts:18-24 | the characters of parameters, final letters and payloads |
| `StripAnsi.PassOnTokens` | src/hooks/agentPatterns.ts:18-25 | each pass deletes its own sequences from an interleaving and keeps everything else |
| `StripAnsi.StripErasesExactlyTheSequences` | src/hooks/agentPatterns.ts:16-28 | any interleaving of text with complete sequences strips to the concatenated text |
| `Rfc3339.WrittenIsRead` | crates/android-ffi/src/cloud_sync_logic.rs:59-62 | a stamp written from date, time and offset denotes their instant |
| `Rfc3339.DaysAreCounted` | crates/android-ffi/src/cloud_sync_logic.rs:59-63 | day numbers count the days of the calendar one by one, leap years included |
| `Rfc3339.FractionIsRead` | crates/android-ffi/src/cloud_sync_logic.rs:59-62 | the same with a fraction of any number of digits |
| `Rfc3339.NanosecondsAre` | crates/android-ffi/src/cloud_sync_logic.rs:59-62 | what the digits of a fraction count, down to the ninth |
| `Rfc3339.LaterIsGreater` | crates/android-ffi/src/cloud_sync_logic.rs:63 | on the clock of UTC instants are ordered by date, hour, minute, second and fraction |
| `Rfc3339.OffsetIsSubtracted` | crates/android-ffi/src/cloud_sync_logic.rs:63 | local time minus the offset is UTC |
| `CloudSync.CheckUploadConflict` | crates/android-ffi/src/cloud_sync_logic.rs:18-40 | when there is a conflict, and which, in both directions |
| `CloudSync.DeviceState.SetSyncInfo` | crates/cloud-sync/src/sync_state.rs:85-98 | hash, device name, stamp and local version are recorded, nothing else |
| `CloudSync.DeviceState.UploadTo` | crates/android-ffi/src/cloud_sync.rs:480-612 | the new device, cloud and outcome of one upload, for every refusal and fault |
| `CloudSync.DeviceState.DownloadFrom` | crates/android-ffi/src/cloud_sync.rs:619-801 | the new device and outcome of one download, for every refusal |
| `CloudSyncLaws.UploadAnswersIff` | crates/android-ffi/src/cloud_sync.rs:480-612 | when an upload gives each of its answers, the password mismatch and both conflicts among them |
| `CloudSyncLaws.UploadLeaves` | crates/android-ffi/src/cloud_sync.rs:556-611 | the file and the remembered state after each answer |
| `CloudSyncLaws.ForcedUploadOverwrites` | crates/android-ffi/src/cloud_sync.rs:508-555 | a forced upload of a device that can unlock its store always writes its file, whatever the cloud holds or the device remembers |
| `CloudSyncLaws.DownloadAnswersIff` | crates/android-ffi/src/cloud_sync.rs:619-780 | when a download gives each of its answers |
| `CloudSyncLaws.DownloadLeaves` | crates/android-ffi/src/cloud_sync.rs:751-801 | the configuration and the remembered state after each answer |
| `CloudSyncLaws.IsOlderIff` | crates/android-ffi/src/cloud_sync_logic.rs:55-71 | older means earlier instants, or the smaller text when one is no stamp |
| `CloudSyncLaws.UnforcedUploadWritesIff` | crates/android-ffi/src/cloud_sync_logic.rs:18-40 | an unforced upload passes exactly when the cloud is empty, gives no hash, or holds the remembered version |
| `CloudSyncLaws.RunKeepsHashesEarned` | crates/android-ffi/src/cloud_sync.rs:596-609 | in every run a remembered hash is of a file that the device uploaded or applied |
| `CloudSyncLaws.RunKeepsVersions` | crates/android-ffi/src/cloud_sync.rs:560-609 | in every run a version names one file, in the history and in the cloud |
| `CloudSyncLaws.NoLostUpdate` | crates/android-ffi/src/cloud_sync.rs:480-612 | in every run of many devices an unforced upload that replaces a file comes from a device that had uploaded or applied that very file |
| `CloudSyncLaws.UploadIsFixpoint` | crates/android-ffi/src/cloud_sync.rs:596-609 | after a successful upload the device's unforced download reports no update and its unforced upload succeeds |
| `CloudSyncLaws.DownloadIsFixpoint` | crates/android-ffi/src/cloud_sync.rs:751-792 | the same after a successful download |
| `CloudSyncLaws.UploadThenDownload` | crates/android-ffi/src/cloud_sync.rs:480-801 | what one device uploads another applies: same configuration, hash and stamp |
| `CloudSyncLaws.UnforcedDownloadAppliesIff` | crates/android-ffi/src/cloud_sync.rs:677-723 | an unforced download replaces the configuration exactly when the cloud version is not the remembered one or a local version is unknown |
| `CloudSyncLaws.AppliedKeepsTimeIff` | crates/android-ffi/src/cloud_sync_logic.rs:51-85 | an accepted unforced download keeps or raises the device's time exactly when the applied stamp parses |
| `CloudSyncLaws.DownloadsNeverGoBackIff` | crates/android-ffi/src/cloud_sync_logic.rs:51-85 | over every run, a device that only downloads unforced never goes back in time exactly when every stamp it applies is RFC 3339 |
| `CloudSyncLaws.DownloadsNeverGoBack` | crates/android-ffi/src/cloud_sync_logic.rs:51-85 | while all stamps are RFC 3339 it never goes back, at any step or over the whole run |
| `CloudSyncLaws.UnparsedStampLetsTimeFall` | crates/android-ffi/src/cloud_sync_logic.rs:64-70 | a stamp without seconds and offset lets two accepted downloads take the device back by an hour and a half |
| `RateLimit.RateLimiter.CheckRateLimit` | server/cloud-sync.php:61-79 | accepts below ten recent requests and rewrites the file, refuses otherwise and writes nothing |
| `RateLimit.RefusedIff` | server/cloud-sync.php:61-79 | in every run a request is refused exactly when ten were accepted in the 60 seconds before it |
| `RateLimit.EveryWindowIsBounded` | server/cloud-sync.php:61-79 | in every run every window of 60 seconds holds at most ten accepted requests |
| `RateLimit.ModestClientIsNeverRefused` | server/cloud-sync.php:59-79 | a client with at most ten requests in every window is never refused |
| `RateLimit.OAuthStates.Issue` | server/cloud-sync.php:163-177 | the new state is stored and every entry older than 600 seconds is dropped |
| `RateLimit.OAuthStates.Exchange` | server/cloud-sync.php:230-247 | a stored state is consumed and accepted; otherwise the reason, and nothing changes |
| `RateLimit.ExchangeIs` | server/cloud-sync.php:230-247 | when a state is missing or unknown, and the table after an exchange |
| `RateLimit.TableIsUsable` | server/cloud-sync.php:163-247 | after any calls the table holds exactly the usable states with their time of issue |
| `RateLimit.ExchangeAcceptedIff` | server/cloud-sync.php:230-247 | an exchange is accepted exactly when its state was issued and since then neither reissued, exchanged, nor followed by an issue more than 600 seconds later |
| `RateLimit.AcceptedOncePerIssue` | server/cloud-sync.php:244-247 | an exchange after another of the same state is accepted only if the state was issued again between them |
| `KeyPlans.ToggleLands` | src/hooks/answerSubmitter.ts:62-77 | one toggle flips one entry, displaced by as much as the tracked cursor is off |
| `KeyPlans.ToggleRunLaw` | src/hooks/cliBehavior.ts:204-207 | over any run of toggles the displacement stays, and a mark flips exactly if its entry was toggled oddly often |
| `KeyPlans.TrackedCursorStaysExact` | src/hooks/cliBehavior.ts:204-207 | from a right cursor the tracked one stays right, and the marks are the symmetric difference |
| `KeyPlans.ToggleHitsIff` | src/hooks/answerSubmitter.ts:62-77 | a toggle flips its target exactly when the tracked cursor is the real one |
| `KeyPlans.PlanIs` | src/hooks/answerSubmitter.ts:93-115 | a confirm plan is fewer than n arrows and one final Enter, or the lone Esc |
| `KeyPlans.ConfirmLandsIff` | src/hooks/answerSubmitter.ts:260-273 | Enter is pressed once and last, on the last tab exactly when the assumed tab fits the real one |
| `KeyPlans.ConfirmFromKnownTab` | src/hooks/answerSubmitter.ts:516-528 | from a known tab every plan ends on the last tab with one Enter, or cancels |
| `KeyPlans.ConfirmWithoutArrows` | src/hooks/answerSubmitter.ts:260-268 | without options or tabs a plan is one Enter in place; OpenCode without known tabs sends Tab and Enter |
| `KeyPlans.PlanFailsIff` | src/hooks/answerSubmitter.ts:268-272 | a plan throws exactly when options show, tabs are known, and the index is at least twice their number and not one below a multiple of it |
| `KeyPlans.BuildPlanModeKeys` | src/hooks/answerSubmitter.ts:485-490 | the loop builds the arrows and the Enter |
| `KeyPlans.IndexedPlansChooseIndex` | src/hooks/answerSubmitter.ts:393-395 | permission and Plan Mode plans choose exactly the entry at their index |
| `KeyPlans.ExecuteSteps` | src/hooks/cliBehavior.ts:130-151 | every step is delivered once and in order, with each wait between a step and the next |
| `KeyPlans.ReceivedIsJoined` | src/hooks/cliBehavior.ts:138-147 | for any delays the terminal receives the joined keys |
| `KeyPlans.GapIff` | src/hooks/cliBehavior.ts:143-147 | a pause lies between two steps exactly when the earlier one asks for it |
| `KeyPlans.LastDelayIsIgnored` | src/hooks/cliBehavior.ts:143-147 | a delay on the last step makes no difference |
| `KeyPlans.ClaudeConfirmIsSplit` | src/hooks/cliBehavior.ts:435-455 | the split confirm delivers the plan's keys, and Enter comes at least 300 ms after the arrows |
| `KeyPlans.ClaudeMultiSelectConfirm` | src/hooks/cliBehavior.ts:429-434 | in multi-select mode the confirm is one write of Tab and Enter |
| `KeyPlans.RejectIsSplit` | src/hooks/cliBehavior.ts:296-304 | the split Reject delivers the same keys as the single string, with 300 ms before Enter |
| `KeyPlans.OtherEditingIsSplit` | src/hooks/cliBehavior.ts:225-257 | leaving the text entry, changing tab and coming back arrive as three keys 300 ms apart |
| `KeyPlans.LateDelayPlansHaveNoGap` | src/hooks/cliBehavior.ts:384-405 | plans whose only delay is on the last step send both steps at once |
| `ScreenMap.ExtractLineText` | src/hooks/screenScraper.ts:133-153 | the loop over the cells gives the trimmed text |
| `ScreenMap.BuildCharToCell` | src/hooks/screenScraper.ts:214-222 | the loop gives the kept cells in order |
| `ScreenMap.CellAdds` | src/hooks/screenScraper.ts:137-149 | what each further cell adds to the text and to the map |
| `ScreenMap.CharToCellIncreases` | src/hooks/screenScraper.ts:214-222 | the map is strictly increasing and reaches every kept cell |
| `ScreenMap.OriginHolds` | src/hooks/screenScraper.ts:133-153 | each position of the text lies in the units of the cell it was read from |
| `ScreenMap.MapsToOriginIff` | src/hooks/screenScraper.ts:210-222 | a position is mapped to its cell exactly when no cell that begins before it holds several code units |
| `ScreenMap.TrimmedTextMaps` | src/hooks/screenScraper.ts:210-222 | on lines with at most one unit a cell, position k of the trimmed text is the unit of cell charToCell[k] |
| `ScreenMap.FindActiveTab` | src/hooks/screenScraper.ts:229-256 | the search loop finds labels from left to right and stops at the first highlighted one |
| `ScreenMap.SearchVisitsPlaces` | src/hooks/screenScraper.ts:232-255 | on a row laid out in order every label is found at its own place |
| `ScreenMap.ActiveTabIsFirstBright` | src/hooks/screenScraper.ts:229-256 | the active tab is the first label whose first unit was read from a highlighted cell |
| `ScreenMap.IsOptionTextIff` | src/hooks/screenScraper.ts:100-101 | a line is an option line exactly when a mark follows leading spaces |
| `ScreenMap.GetCursorOptionIndex` | src/hooks/screenScraper.ts:87-120 | the number of option lines from the start line through the cursor, minus one, or none |
| `LineScan.SpacesThenTextIff` | src/hooks/agentPatterns.ts:181-183 | the scanner for spaces and text succeeds exactly when such a split exists |
| `DevinOptions.ExtractOptions` | src/hooks/agentPatterns.ts:168-246 | the options of the numbered pass if the numbers are consecutive, else those of the unnumbered pass, else none |
| `DevinOptions.CollectNumbered` | src/hooks/agentPatterns.ts:202-217 | the loop of the first pass collects the options and their numbers |
| `DevinOptions.CollectUnnumbered` | src/hooks/agentPatterns.ts:232-244 | the loop of the second pass collects the options |
| `DevinOptions.ExtractCursorIndex` | src/hooks/agentPatterns.ts:274-306 | the loop returns the number of counted lines above the first counted cursor line |
| `DevinOptions.AgreeIff` | src/hooks/agentPatterns.ts:202-306 | for either pass, the option at the cursor's index is the cursor line's exactly when every counted line down to it is listed |
| `DevinOptionsLaws.CursorPicksItsOptionIff` | src/hooks/agentPatterns.ts:168-306 | the same for the two extractors; then the index is in range and the option is read from the cursor's line |
| `DevinOptionsLaws.CursorPicksItsOption` | src/hooks/agentPatterns.ts:168-306 | they agree when every marked line is numbered or "Other" (numbered mode), or every marker is followed by a space (unnumbered mode) |
| `DevinOptionsLaws.ConsecutiveIff` | src/hooks/agentPatterns.ts:222-224 | a dialog is numbered exactly when, for some n of at least 1, the numbers 1 to n occur once each and no other positive number does |
| `DevinOptionsLaws.NumberedPassIff` | src/hooks/agentPatterns.ts:219-230 | the numbered pass is chosen exactly when, for some n of at least 1, each of 1 to n numbers one line and no other positive number any |
| `DevinOptionsLaws.ListedLinesAre` | src/hooks/agentPatterns.ts:205-244 | the listed lines are all lines the pass reads, in screen order |
| `DevinOptionsLaws.ExtractedIs` | src/hooks/agentPatterns.ts:219-245 | the options are those of the listed lines, or there is no list |
| `DevinOptionsLaws.RenderedIsRead` | src/hooks/agentPatterns.ts:181 | a drawn entry gives back its number and text, whatever the spacing |
| `DevinOptionsLaws.OtherIsRead` | src/hooks/agentPatterns.ts:182 | the entry for one's own answer is read in any case and spacing |
| `DevinOptionsLaws.NumberedOptionIs` | src/hooks/agentPatterns.ts:206-211 | a drawn numbered entry is extracted as number, full stop, space and text |
| `DevinOptionsLaws.UnnumberedOptionIs` | src/hooks/agentPatterns.ts:240-243 | a drawn entry without number is extracted as its text |
| `DevinOptionsLaws.MarksAre` | src/hooks/agentPatterns.ts:181-183 | the four marks, and the cursor among them |
| `DevinOptionsLaws.CancelFollowsIff` | src/hooks/agentPatterns.ts:179 | the footer's second half is found exactly when it stands somewhere on the line |
| `DevinOptionsLaws.IsFooterIff` | src/hooks/agentPatterns.ts:179 | a line is a footer exactly when the footer's text begins somewhere on it |
| `DevinOptionsLaws.DialogBoundaries` | src/hooks/agentPatterns.ts:185-200 | the dialog lies between the nearest ruled line and the nearest separator, at most five lines above the first footer |
| `DevinOptionsLaws.PassedOverLineShiftsCursor` | src/hooks/agentPatterns.ts:293-304 | a counted line that the numbered pass leaves out puts the cursor's index out of range |
| `DevinOptionsLaws.MixedDialogDisagrees` | src/hooks/agentPatterns.ts:168-306 | a screen with one unnumbered and one numbered entry: cursor index 1, a single option |
| `RemoteFrame.RoundTripIff` | crates/daemon/src/remote_frame.rs:280-313 | a frame survives the wire exactly when its payload is shorter than 2^31 bytes |
| `RemoteFrame.ReadsAPrefix` | crates/daemon/src/remote_frame.rs:292-313 | whatever is read are a frame's bytes, possibly with more behind them |
| `RemoteFrame.LayoutIs` | crates/daemon/src/remote_frame.rs:280-289 | the bytes on the wire, field by field, high byte first |
| `RemoteFrame.HelloIs` | crates/daemon/src/remote_frame.rs:69-74 | the fields and the payload of a HELLO |
| `RemoteFrame.HelloRoundTrip` | crates/daemon/src/remote_frame.rs:326-334 | capabilities and random survive building, sending and parsing a HELLO |
| `TunnelSession.TunnelRegistry.InitTunnel` | crates/android-ffi/src/remote_terminal.rs:65-89 | a session that waits replaces any older one, and its HELLO is handed out |
| `TunnelSession.TunnelRegistry.ProcessBinary` | crates/android-ffi/src/remote_terminal.rs:95-162 | when incoming data is accepted, with what event and session; a failure changes nothing |
| `TunnelSession.TunnelRegistry.EncryptOutgoing` | crates/android-ffi/src/remote_terminal.rs:296-311 | the ciphertext, or an error unless ready, and the advanced counter |
| `TunnelSession.TunnelRegistry.CloseTunnel` | crates/android-ffi/src/remote_terminal.rs:432-450 | a GOODBYE when ready, then the session is gone; on an encryption error it stays |
| `TunnelSession.TunnelRegistry.IsReady` | crates/android-ffi/src/remote_terminal.rs:453-458 | true exactly for a known session that is ready |
| `TunnelSessionLaws.RunKeepsInv` | crates/android-ffi/src/remote_terminal.rs:65-450 | every run keeps the registry invariant about phases, keys, randoms and counters |
| `TunnelSessionLaws.ReadyIffBothCiphers` | crates/android-ffi/src/remote_terminal.rs:101-136 | in every reachable registry a session is ready exactly when it has both ciphers |
| `TunnelSessionLaws.ReadyLasts` | crates/android-ffi/src/remote_terminal.rs:143-160 | once ready no bytes change a session's phase, keys or receiving cipher; without sends nothing changes |
| `TunnelSessionLaws.SendsIff` | crates/android-ffi/src/remote_terminal.rs:302-310 | a send hands out a ciphertext exactly when ready with counter left, under the session's key |
| `TunnelSessionLaws.NonceRepeatsIff` | crates/daemon/src/frame_crypto.rs:126-146 | over every run with fresh client randoms, across reconnects and tunnels, two ciphertexts share key, direction and counter exactly when both are under the same pairing key |
| `TunnelSessionLaws.ReconnectRepeatsHelloNonce` | crates/android-ffi/src/remote_terminal.rs:65-89 | a run of two connections whose HELLOs have the same nonce and different plaintexts |
| `TunnelSessionLaws.AcceptsIff` | crates/android-ffi/src/remote_terminal.rs:101-151 | exactly what a session accepts: a HELLO under its pairing key while it waits, any frame under its receiving key once ready |
| `TunnelSessionLaws.DirectionAndCounterAreIgnored` | crates/daemon/src/frame_crypto.rs:148-158 | the direction and the counter of what arrives make no difference to a session |
| `TunnelSessionLaws.ReadyHandsOn` | crates/android-ffi/src/remote_terminal.rs:143-160 | a ready session hands every frame on with its own type, terminal and payload |
| `TunnelSessionLaws.ReadyHandsOnWhatIsRead` | crates/android-ffi/src/remote_terminal.rs:143-160 | what is handed on is the frame read from the accepted plaintext |
| `TunnelSessionLaws.WaitingBecomesReady` | crates/android-ffi/src/remote_terminal.rs:102-142 | the session after a HELLO, with both ciphers at counter 0 |
| `TunnelSessionLaws.OtherTunnelsAreUntouched` | crates/android-ffi/src/remote_terminal.rs:95-450 | a step concerns its own tunnel only |
| `TunnelSessionLaws.InitIs` | crates/android-ffi/src/remote_terminal.rs:65-89 | the session and the HELLO of a new tunnel |
| `TunnelSessionLaws.CloseIs` | crates/android-ffi/src/remote_terminal.rs:432-450 | a ready tunnel says GOODBYE under its own key and is gone, unless its counter is exhausted |
| `TunnelSessionLaws.HelloIsUnderstood` | crates/daemon/src/remote_server.rs:903-1009 | the desktop accepts the phone's HELLO and derives both ciphers |
| `TunnelSessionLaws.HelloIsAnswered` | crates/daemon/src/remote_server.rs:951-1008 | the answer to any HELLO: the shared capability, and both ciphers from the two randoms |
| `TunnelSessionLaws.RefusedHellos` | crates/daemon/src/remote_server.rs:935-970 | exactly which frames are refused, and what is replied |
| `TunnelSessionLaws.HonestHandshake` | crates/android-ffi/src/remote_terminal.rs:102-142 | the handshake ends ready with the same key on both sides in each direction |
| `TunnelSessionLaws.FramesArrive` | crates/android-ffi/src/remote_terminal.rs:143-160 | over a run of received data, the events are the frames the desktop sealed, one by one and unchanged |
| `TunnelSessionLaws.SentIsOpened` | crates/daemon/src/frame_crypto.rs:130-158 | what a ready phone sends the desktop's cipher opens to the same frame |
| `TunnelTasks.DesktopTunnelManager.StopTunnel` | src-tauri/src/tunnel_manager.rs:104-109 | the handle is removed and its task aborted; nothing else |
| `TunnelTasks.DesktopTunnelManager.BeginStart` | src-tauri/src/tunnel_manager.rs:69-85 | stop, register the key and spawn, before the handle is stored |
| `TunnelTasks.DesktopTunnelManager.FinishStart` | src-tauri/src/tunnel_manager.rs:99-100 | the handle is stored, whatever became of its task |
| `TunnelTasks.DesktopTunnelManager.ClientReturns` | src-tauri/src/tunnel_manager.rs:88-90 | the exiting task gives up its pairing's key |
| `TunnelTasks.DesktopTunnelManager.CleanUp` | src-tauri/src/tunnel_manager.rs:91 | the exiting task removes its pairing's handle |
| `TunnelTasks.DesktopTunnelManager.StopAll` | src-tauri/src/tunnel_manager.rs:125-131 | the drain loop empties the map and aborts every task in it |
| `TunnelTasks.OtherPairingsAreUntouched` | src-tauri/src/tunnel_manager.rs:60-109 | no event but stop_all changes the handle, key or tasks of a pairing that it is not about |
| `TunnelTasks.OwnPairingIs` | src-tauri/src/tunnel_manager.rs:60-131 | what each event does to its own pairing, and stop_all to every one |
| `TunnelTasks.StartedRuns` | src-tauri/src/tunnel_manager.rs:60-101 | a completed start leaves a running task with its handle and key |
| `TunnelTasks.PairingLasts` | src-tauri/src/tunnel_manager.rs:66-68 | over every continuation a pairing stays as it is, live tasks live, until an event of its own or a stop_all |
| `TunnelTasks.RunKeepsInv` | src-tauri/src/tunnel_manager.rs:60-132 | every possible run keeps: live tasks are the stored or the starting one, running clients have keys |
| `TunnelTasks.OneLiveTaskPerPairing` | src-tauri/src/tunnel_manager.rs:60-101 | with no start in progress a pairing has at most one live task, its handle leads to it, and a running client's key is registered |
| `TunnelTasks.CleanUpTakesOwnHandle` | src-tauri/src/tunnel_manager.rs:85-97 | an exiting task never removes the handle of another task |
| `TunnelTasks.StopsLeaveNothingLive` | src-tauri/src/tunnel_manager.rs:104-131 | after a stop the pairing has no live task, after stop_all none has |
| `TunnelTasks.ActiveIff` | src-tauri/src/tunnel_manager.rs:85-122 | a stored handle leads to a live task exactly unless that task's clean-up came before the end of its own start |
| `TunnelTasks.DeadHandleExample` | src-tauri/src/tunnel_manager.rs:85-100 | a run that leaves a handle to a finished task |

## Left out

- Tauri IPC, tray, windows, stores and React rendering: plumbing.
- HTTP, WebSocket, SSH, PTY and VPN clients, timers and file access: events, parameters or fields of the models.
- AES-GCM, HKDF, ECDH, Argon2, SQLCipher and the keychain: symbolic, keys and hashes are free constructors.
- The regular expressions that detect an agent's status, its CLI and a shell prompt: inputs of the interval.
- React's extraction of questions and its option cache in `syncToReact`: only the multi-select flag of the state is modelled.
- One interval reads the clock several times in the code and once in the model.
- `JSON.stringify` of numbers beyond 2^53, fractions, dates and `toJSON`: canonical JSON is modelled for safe integers.
- `btoa` and `TextEncoder` are library calls: given by their specifications.
- The permission-dialog fallback of Devin's options extractor and `Other`-text editing: they share no state with the two scanners.
- Splitting a tab row into labels, and the colour formats of cells: labels and a highlight test are inputs of the search.
- One provider and one path of the cloud drive; partial failures while applying a download, and interleavings inside one upload or download.
- `CloudSync.DeviceState.UploadTo` and `DownloadFrom`: the branch that initialises a pending store after unlocking is not modelled, a pending store does not unlock.
- The time stamp library's further leniency (U+2212 as a minus sign): stamps are read as RFC 3339 allows.
- Concurrent unlocked requests to the PHP files: requests come one after the other, and the clock does not go back.
- The provider, redirect and PKCE checks of the OAuth proxy: independent guards.
- The remote-answer listener enters only through its clear and notify steps.
- The desktop's frame processing after the handshake, its timeouts and its relay connection.
- The pairing store on disk that an exiting tunnel task also edits, and the task's messages to the log.
- `overlayReset`, title detection, MIME and theme tables, GeoIP and the updater manifest: one reading settles them.
