# Verified model of seck

seck sends untrusted files through a chain of processes: a host walks a directory, reads the files and
streams them through pipes to a sandboxed reader; the reader (in Mode B, a second process fed by JSON
lines) builds a prompt in which each file is base64 text between nonce markers; a three-pass pipeline of
model calls turns the prompt into findings; reports are stripped of terminal controls; an audit log chains
every record to the one before; and a checker looks for a planted canary in recorded system calls. This
project models that path in Dafny and proves what it promises.

| file | what it models |
|---|---|
| `Bytes`, `Streams`, `Text`, `TextLines` | little-endian fields; descriptors that move any number of bytes per call; string search; Rust's `lines` |
| `Wire`, `WireErrors` | the host's serialiser and the reader's parser of the frame format; which input is refused with which error |
| `Transport` | host and children as a concurrent step system over bounded pipes with counted ends, for any number of children; runs in which no process has a reason to fail |
| `Safety`, `Stalls`, `Hangs` | what every run keeps, failing ones included; that no run is infinite; what a state looks like in which nothing can move; exactly when a run of one or of two children can reach one |
| `Descriptors`, `Modes` | pipe, dup2 and drop order of both modes; the chains they set up, and what every run of them delivers |
| `Ipc`, `Readers` | the JSON-line hop of Mode B; the two prompt builders side by side |
| `Base64`, `Wording`, `Prompt`, `Recovery` | section 4 of RFC 4648; the fixed wording; the nonce-delimited prompt; finding the files' bytes in it again |
| `Walk`, `FileSet` | the limited recursive walk; reading the files; how the limits line up with the wire's |
| `Audit` | writers and verifier of the hash-chained, signed log |
| `Sanitize` | the look-ahead scanner and the automaton it refines |
| `Strace`, `StraceLines`, `StraceForms`, `Recordings` | the quoted-string lexer; the line parser; exactly which lines are recognised and as what; what the check of a recording is worth |
| `TraceCheck`, `Boundary` | the canary checker; the provenance-tagged model of the Lean proof |
| `Judging`, `Pipeline` | filling the judge's template; the three passes over a stateful backend |

Code that mutates is modelled by methods and classes (descriptors, the log file and its writers, the
backend, the walker's accumulators); each method equals a specification function of its inputs or of the
old state, and the theorems are about those functions. Pure code is modelled by functions. What such a
function computes is stated a second time without it, on all inputs and with literal values: the verifier's
answer on any text, the parser's on any bytes, the line parser's on any line, the sanitizer's on any text, the
walk's failures on any tree, the encodings digit by digit, the prompts and settings of every model call.

UTF-8, JSON, hashing and signing are records of arbitrary functions. Where a theorem needs a law of them
(decoding undoes encoding, a JSON line has no raw line break, a signature made by a key verifies) it is a
precondition named `Lawful` or `Injective`. Collision freedom is never assumed: a collision is a possible
outcome, and the proof extracts it.

## Where the code and its own words differ

The model follows the code.

- The host drops its own ends so that the end of input reaches the children
  (`crates/seck-host/src/orchestrator.rs:214-219`, and likewise `:74` for Mode A). The pipes are made without
  close-on-exec, so in Mode B a child always inherits a copy of the feeding end, and the inference process a
  copy of the end its messages come through (`Descriptors.ModeBIsWired`); in Mode A the reader inherits the
  feeding end unless it was opened as descriptor 5 (`Descriptors.ModeAIsWired`). While a holder lives, the
  end of input cannot arrive. A reader that has accepted the whole stream does not need it. Otherwise a run
  can hang, under exact conditions, at every capacity:
  - Mode A, the default (`Modes.ModeAHangs`): if and only if the stream is cut short (a file that shrank after
    the walk, say) and the reader holds that end; or the parser accepts early, so much of the stream is left
    that it does not fit the first pipe, and the report does not fit the second. The host writes the whole
    stream before it reads any of the report. File contents can bring this about, from any descriptor
    table: `Modes.NestedHangs`.
  - Mode B (`Modes.ModeBHangs`): if and only if the stream is cut short; or it is rejected, and either the
    inference process keeps a copy of the first pipe's read end or little enough is left of the stream that
    the host can be rid of it; or the parser accepts early, the inference process keeps that copy, and rest
    and report are too long for their pipes. The copy is lost if the read end was opened as descriptor 3
    or 5. A path longer than the wire allows, which walk and serialiser let through, is the plainest
    rejection: `Modes.LongPathHangs`.
- The size field of an entry is the size found by the walk, not the number of bytes that follow. The round
  trip therefore holds if and only if the two agree (and the limits are met): `Wire.RoundTrip`.
- `crates/seck-proto/src/lib.rs:5` fixes the two reserved header bytes to zero; the parser ignores them.
  `Wire.Canonical` is exact up to these two bytes.
- `crates/seck-proto/src/lib.rs:24` declares an error for short reads; the parser reports an input that
  ends early through its input error instead, here `UnexpectedEof`.
- The trace checker is documented to cover program arguments and environments. It does, but the parser
  that feeds it always leaves both empty, and leaves strings escaped. `Recordings.RecordingIsChecked` states
  which canaries the escape leaves alone, and that for exactly these nothing else is missed or made up;
  `Recordings.QuotedCanaryIsMissed` is a leak of another that goes unseen.
- The file limit of the walk is checked per directory entry, so a root that is a single file is walked even
  when no file is allowed: `Walk.SingleFileIgnoresCount`. The running total is a 64-bit sum that can wrap: the
  total limit bounds the true total under exactly the limits named in `Walk.WalkIsBounded`, among them the
  default ones.
- The auditors and the judge are shown the first analyst reply even when the findings come from the retry:
  `Pipeline.CallTrace`, `Pipeline.ResultMeaning`.
- The judge's template is filled one placeholder after the other, so an auditor placeholder inside the
  analyst's text is filled too: `Judging.JudgePromptIs` says exactly when the judge sees the analyst's
  own text.
- Paths are the one way a marker can enter a prompt from outside. Ambiguity is excluded if and only if no
  path contains a marker, in both modes: `Prompt.MarkersUnambiguous`, `Readers.ModeBUnambiguous`; for finding the bytes again, only a begin marker in a
  path does harm: `Recovery.PromptRecovers`, `Readers.ModeBRecovers`. Mode B's prompt prints paths without any
  escape; since the escape neither makes nor breaks a marker, the conditions are the same.

## Model

| member | source | states |
|---|---|---|
| Bytes.LeRoundTrip | crates/seck-proto/src/lib.rs:3-8 | a number written to a field and read back keeps exactly the bits that fit |
| Bytes.LeCanonical | crates/seck-proto/src/lib.rs:3-8 | a field content is the only spelling of its value |
| Bytes.LeAt | crates/seck-proto/src/lib.rs:3-8 | little-endian: the byte at place `k` counts multiples of 256 to the `k` |
| Streams.Input.ReadToEnd | crates/seck-host/src/orchestrator.rs:123-136 | the drain loop collects exactly the rest of the stream, however it is handed out |
| Streams.Output.WriteToSandboxPipe | crates/seck-fd/src/lib.rs:64-83 | on success the whole buffer went out once and in order; on a short write or a failing call some leading bytes did but not all, and a short write reports exactly how many |
| Wire.WriteFilesetProtocol | crates/seck-host/src/orchestrator.rs:89-121 | a successful write appends exactly the serialised file set; a failed one a proper prefix of it |
| Wire.ReadFrames | crates/seck-reader/src/protocol.rs:13-33 | over any chunking, the same frames, errors and consumed length as the parser specification, header checks in the code's order |
| Wire.ReadBody | crates/seck-reader/src/protocol.rs:34-61 | the entry loop and the trailer likewise |
| Wire.ReadEntry | crates/seck-reader/src/protocol.rs:36-54 | one entry likewise: limits before contents, path before size |
| Wire.ParseIgnoresTail | crates/seck-reader/src/protocol.rs:13-61 | any verdict other than running out of input is independent of what follows |
| Wire.PrefixFree | crates/seck-reader/src/protocol.rs:13-61 | every proper prefix of the bytes an accepted stream consumes makes the parser run out of input; the consumed bytes followed by anything parse the same |
| Wire.EntryRoundTrip | crates/seck-host/src/orchestrator.rs:103-116 | an entry that fits is recovered, with the exact number of bytes, whatever follows |
| Wire.EntryRecovered | crates/seck-host/src/orchestrator.rs:103-116 | an entry that comes back with its path and content did fit |
| Wire.RoundTrip | crates/seck-host/src/orchestrator.rs:89-121 | host stream plus any tail parses to the host's paths and contents if and only if the file set fits the limits and no file's length differs from its recorded size; the parser then stops exactly at the stream's end |
| Wire.Canonical | crates/seck-reader/src/protocol.rs:13-61 | an accepted input is, up to the reserved bytes, the host's serialisation of a fitting file set that reads back as the same frames |
| Wire.StreamsDiffer | crates/seck-host/src/orchestrator.rs:89-121 | if one fitting file set's stream is a prefix of another's, the reader sees the same file set |
| Wire.ShrunkStreamIsShort | crates/seck-host/src/orchestrator.rs:113-115 | if the last file shrank, no prefix of the stream, the whole included, satisfies the parser |
| Wire.LongPathIsRejected | crates/seck-reader/src/protocol.rs:37-40 | a first path over the wire's limit, which walk and serialiser let through, is rejected with its length |
| WireErrors.ParseIsExact | crates/seck-reader/src/protocol.rs:13-61 | for every input and every error: refused with it if and only if it names the first fault, in the header, in the entry after those in order, or in the trailer; by literal magic, version and limits |
| Transport.StepInv | crates/seck-host/src/orchestrator.rs:151-239 | in a chain whose programs accept their inputs, every step of every process keeps the invariant: on each pipe, bytes taken, in flight and still to come make up the intended flow, in order and within capacity, and no process has failed |
| Transport.NoPrematureEof | crates/seck-host/src/orchestrator.rs:161-219 | no child meets an end of file while it still wants input |
| Transport.NoBrokenPipe | crates/seck-host/src/orchestrator.rs:161-219 | no process ever writes to a pipe without a reader |
| Transport.AllDelivered | crates/seck-host/src/orchestrator.rs:225-239 | when the host meets the end of the report pipe it holds the last child's whole output |
| Transport.Progress | crates/seck-host/src/orchestrator.rs:151-239 | deadlock freedom: until the host has finished, some process has an enabled step |
| Transport.StepWorks | crates/seck-host/src/orchestrator.rs:151-239 | every step lowers a natural-number measure |
| Transport.EveryRunDelivers | crates/seck-host/src/orchestrator.rs:151-239 | every error-free interleaving, for any capacities, chunk sizes and inherited ends, is bounded, never fails and never sticks; at the end each child consumed exactly its input and the host holds exactly the last output |
| Safety.StepSafe | crates/seck-host/src/orchestrator.rs:151-239 | with no assumption on the programs, every step keeps: a pipe's bytes are its writer's output in order, short only if the writer failed; why each child left its reading phase; which ends the host holds |
| Safety.EveryRunIsSafe | crates/seck-host/src/orchestrator.rs:151-239 | on every run, failing ones included, what left a pipe and what is in it are a prefix of what its writer meant to send; if the host finishes, every child exited after accepting its input, every pipe carried its writer's whole output, and the report is the last child's |
| Stalls.StepFalls | crates/seck-host/src/orchestrator.rs:151-239 | every step of any run lets a child decide or lowers a natural-number measure |
| Stalls.EveryRunEnds | crates/seck-host/src/orchestrator.rs:151-239 | no chain has an infinite run, whatever its programs and failures |
| Stalls.StarvedNeverEnds | crates/seck-host/src/orchestrator.rs:161-163 | if every child wants more than it can get and the first's feeding end was inherited, no run ever ends, at any capacity |
| Stalls.StarvedIsStuck | crates/seck-host/src/orchestrator.rs:161-163 | some run of such a chain reaches, with the whole stream read, a state in which no process can move |
| Hangs.AloneHangs | crates/seck-host/src/orchestrator.rs:32-87 | a single child with its verdict `v` bytes into the stream can hang if and only if it wants more than the whole stream and holds a write end of its own input, or it accepts, more than the first capacity follows `v`, and its output is longer than the second capacity |
| Hangs.PairHangs | crates/seck-host/src/orchestrator.rs:151-239 | two children, the second of which holds a write end of its own input and takes all the first may send, can hang if and only if the first wants more than the whole stream; or rejects it and the second holds the first pipe's read end or less than twice the capacity follows `v`; or accepts it, the second holds that end, and rest and report are longer than their pipes |
| Descriptors.LowestFree | crates/seck-host/src/orchestrator.rs:161-163 | the kernel's choice: an unused descriptor below which all are used |
| Descriptors.ModeAIsWired | crates/seck-host/src/orchestrator.rs:36-67 | for every starting table, the reader's 3 and 5 are the intended pipe ends, 0 to 2 are untouched, and the host keeps exactly the other two ends; the exact set of ends the reader holds: besides its own two, each of the host's unless it was opened as 5 |
| Descriptors.ModeBIsWired | crates/seck-host/src/orchestrator.rs:161-219 | the same for 3 and 7, and 3 and 5, in the two children; the exact set of ends each process holds, copies included, by the descriptors the pipes were opened as |
| Modes.ReaderFeeds | crates/seck-reader/src/main.rs:73-95 | a reader waits on every proper prefix of a stream received complete and is done at its end |
| Modes.FittingIsComplete | crates/seck-host/src/orchestrator.rs:89-121 | a fitting file set is received complete, and as the host's own files |
| Modes.ModeADelivers | crates/seck-host/src/orchestrator.rs:32-87 | from any descriptor table and capacities, every Mode A run on a stream received complete is bounded, unstuck and unfailed; at the end the reader has read the whole stream and the host holds the report on exactly the frames received |
| Modes.ModeAFinishes | crates/seck-host/src/orchestrator.rs:77-86 | for any file set, a run finishes only if the parser accepts the stream, and then with the report on the frames received |
| Modes.ModeAHangs | crates/seck-host/src/orchestrator.rs:32-87 | for every file set, table and capacities: a run can hang if and only if the stream is cut short and the feeding end was not opened as descriptor 5, or the stream is accepted with more than the first capacity after the bytes used and a report longer than the second |
| Modes.NestedHangs | crates/seck-host/src/orchestrator.rs:89-121 | a file that was as long as the next one's framing and is empty when read, before one that holds an entry, a trailer and a long tail: the stream is accepted, and with a long report a run can hang from every starting table |
| Modes.ModeBDelivers | crates/seck-host/src/orchestrator.rs:151-239 | as for Mode A, through both hops; the report pipe ends only after both children are gone |
| Modes.ModeBFinishes | crates/seck-host/src/orchestrator.rs:228-239 | as for Mode A: a run finishes only if the parser accepts the stream, and then with the report on the messages for the frames received |
| Modes.ModeBHangs | crates/seck-host/src/orchestrator.rs:151-239 | for every file set, table and capacities: a run can hang if and only if the stream is cut short; or rejected, and the first read end was opened as neither 3 nor 5 or less than twice the first capacity follows the place of the verdict; or accepted, that end was opened as neither, and rest and report are longer than their pipes |
| Modes.LongPathHangs | crates/seck-host/src/orchestrator.rs:151-239 | a first path over the limit, rejected 16 bytes into the stream, can hang Mode B if and only if the first read end was opened as neither 3 nor 5 or the stream is shorter than 16 bytes and twice the capacity |
| Modes.ModeBNeverEnds | crates/seck-host/src/orchestrator.rs:151-239 | on a stream cut short no run ever ends, at any capacity, chunking and interleaving |
| Modes.VerdictPlace | crates/seck-reader/src/protocol.rs:13-61 | there is one place in the stream before which the parser waits and from which its verdict is the one on the whole stream: the end of the bytes used if accepted, the stream's end if cut short |
| Base64.DecodeEncode | crates/seck-reader/src/prompt.rs:28 | decoding undoes encoding |
| Base64.EncodeDecode | crates/seck-reader/src/prompt.rs:28 | encoding undoes decoding: one spelling per byte string |
| Base64.EncodeIsPlain | crates/seck-reader/src/main.rs:208-210 | encoded text has only alphabet characters and padding, so nothing that could open a tag or end a line |
| Base64.EncodeIsStandard | crates/seck-reader/src/prompt.rs:28 | group by group, the places in the literal alphabet are the bytes' bits six by six, with zero bits and padding at the end |
| Prompt.Assemble | crates/seck-reader/src/prompt.rs:10-46 | the string grown piece by piece is the prompt specification the marker theorems are about |
| Prompt.AssembleFiles | crates/seck-reader/src/prompt.rs:24-31 | the loop over the frames appends exactly the sections, in order |
| Prompt.HexIsPlain | crates/seck-reader/src/prompt.rs:11 | the nonce's text has no character that delimits a marker |
| Prompt.HexIsExact | crates/seck-reader/src/prompt.rs:11 | two digits of the literal sixteen for each byte, the higher first, and their values give the byte back |
| Prompt.NoncesDiffer | crates/seck-reader/src/prompt.rs:11 | different nonces of one length have no marker in common |
| Prompt.PromptIs | crates/seck-reader/src/prompt.rs:10-46 | the prompt announces the nonce's hexadecimal form, opens and closes the list of files with it, and repeats it in the task |
| Prompt.EscapeIs | crates/seck-reader/src/prompt.rs:25 | text without quotes is left alone, and each quote becomes the entity |
| Prompt.EscapeKeepsMarkers | crates/seck-reader/src/prompt.rs:25 | the path escape neither makes nor breaks a marker, also across the seam to text before it |
| Prompt.OccursInBody | crates/seck-reader/src/prompt.rs:24-31 | a marker occurs in a body at the sections' slots, inside printed paths, and nowhere else |
| Prompt.MarkersUnambiguous | crates/seck-reader/src/prompt.rs:10-46 | each marker occurs at every file's slot, and only there if and only if no path contains it |
| Prompt.SlotsGrow | crates/seck-reader/src/prompt.rs:24-31 | slots are distinct, ordered and do not overlap |
| Prompt.NoNonceNoMarker | crates/seck-reader/src/prompt.rs:25-29 | a path without the nonce contains no marker |
| Recovery.AtLeast | crates/seck-reader/src/prompt.rs:24-31 | whatever the paths contain, the search finds at least one segment a file |
| Recovery.RecoverPrompt | crates/seck-reader/src/prompt.rs:24-31 | for a prompt of either mode, the search yields exactly the sections' contents if and only if no printed path contains a begin marker |
| Recovery.PromptRecovers | crates/seck-reader/src/prompt.rs:10-46 | searching for the markers and decoding between them yields every file's bytes, in order and nothing else, if and only if no path contains a begin marker |
| Ipc.WriteMessage | crates/seck-reader-ipc/src/lib.rs:42-48 | one encoded line, or a proper prefix of it on failure |
| Ipc.EmitIpc | crates/seck-reader/src/main.rs:185-225 | header, one message per frame, terminator, in order; a failure has sent a proper prefix |
| Ipc.ReadMessages | crates/seck-reader-ipc/src/lib.rs:50-71 | over any chunking, the same messages, error and consumed length as the line specification |
| Ipc.ReadByLine | crates/seck-reader-ipc/src/lib.rs:50-71 | on any input, a line that is not text or no message is an error, a blank one is skipped, a message is taken, the terminator ends |
| Ipc.ReadRest | crates/seck-reader-ipc/src/lib.rs:50-71 | bytes that no line break ends wait for more, and at end of file are the last line |
| Ipc.ReadIgnoresTail | crates/seck-reader-ipc/src/lib.rs:50-71 | a verdict on the bytes received so far stands whatever arrives later |
| Ipc.LinesRoundTrip | crates/seck-reader-ipc/src/lib.rs:42-71 | the receiver gets exactly the messages sent and reads no byte past the terminator |
| Ipc.PrefixWaits | crates/seck-reader-ipc/src/lib.rs:50-71 | every proper prefix of the messages makes the receiver wait |
| Ipc.HopRoundTrip | crates/seck-reader/src/main.rs:185-225 | the whole second hop, for any frames |
| Readers.BuildPrompt | crates/seck-reader-priv/src/main.rs:60-115 | the message loop equals a fold over the messages, for any message list |
| Readers.PromptOfMessages | crates/seck-reader-priv/src/main.rs:60-115 | the prompt and inputs Mode B makes of the messages for some frames, in closed form |
| Readers.AbsorbedIs | crates/seck-reader-priv/src/main.rs:66-109 | for any list of messages, well formed or not, each adds its piece with the nonce of the last header before it, and the end of files only while files are open |
| Readers.ModeBIs | crates/seck-reader-priv/src/main.rs:66-115 | Mode B's prompt in full: rules, files between tags with the nonce's hexadecimal form, task naming it |
| Readers.ModeBRecovers | crates/seck-reader-priv/src/main.rs:79-87 | the same of Mode B's prompt, under the same condition |
| Readers.ModeBUnambiguous | crates/seck-reader-priv/src/main.rs:79-87 | in Mode B's prompt each marker occurs at every file's slot, and only there if and only if no path contains it |
| Readers.ModesAgree | crates/seck-reader/src/main.rs:128-140 | of the messages that arrive through the second hop Mode B lists the same paths and sizes as Mode A, the k-th section of its prompt decodes to the bytes Mode A digests, and searching it yields them all if and only if no path contains a begin marker |
| Audit.VerifyChain | crates/seck-audit/src/verify.rs:27-55 | the loop over the lines equals the verifier specification, with its errors and indices |
| Audit.VerifyLast | crates/seck-audit/src/verify.rs:31-53 | the first failing line decides; a line is looked at only after all before it passed |
| Audit.VerifyIsExact | crates/seck-audit/src/verify.rs:27-55 | any text is accepted if and only if every line decodes, names the hash due, hashes its body and is signed over it, with the last hash as tip; else the error is that of the first failing check of the first unsound line |
| Audit.ResumesAt | crates/seck-audit/src/chain.rs:22-33 | where a writer resumes: the last line's hash, or the sentinel after nothing or an undecodable line |
| Audit.Writer.constructor | crates/seck-audit/src/chain.rs:17-47 | opening creates a missing file, changes no existing one, and takes the last record's hash, or the genesis value, as tip; it is the `Open` step of every world with this file |
| Audit.Writer.Append | crates/seck-audit/src/chain.rs:53-84 | appends one record chained to the writer's own tip and moves the tip to its hash, which is the `Append` step of every world with this file and this writer's tip; without a file nothing changes |
| Audit.AppendEffect | crates/seck-audit/src/chain.rs:53-84 | one append adds exactly the caller's event to the bodies, and what it does to the verdict on the file: kept, extended, or broken at the new record if the tip was stale |
| Audit.AcceptanceOfInterleavings | crates/seck-audit/src/chain.rs:17-84 | for every interleaving of any number of writers on one file: accepted if and only if every append used the file's last hash, else a chain break at exactly the first that did not |
| Audit.SingleWriterVerifies | crates/seck-audit/src/chain.rs:17-84 | one writer, reopened at will, always leaves a log that verifies with its own tip |
| Audit.TamperEvidence | crates/seck-audit/src/verify.rs:27-55 | two accepted logs with the same tip, of any lengths and keys, have the same bodies, or an extracted pair with equal hashes, or an extracted body hashing to the genesis value |
| Sanitize.Scan | crates/seck-report/src/sanitize.rs:12-60 | the peek loop equals the five-state automaton |
| Sanitize.SkipCsi | crates/seck-report/src/sanitize.rs:20-29 | skips to just after the first ASCII letter or tilde, or to the end |
| Sanitize.SkipOsc | crates/seck-report/src/sanitize.rs:30-44 | skips to just after a bell, or one character after an escape, or to the end |
| Sanitize.SanitizeConcat | crates/seck-report/src/sanitize.rs:12-60 | sanitizing a concatenation is concatenating, when the first part ends outside a sequence |
| Sanitize.SequenceIsInvisible | crates/seck-report/src/sanitize.rs:17-49 | a complete control sequence inserted outside another changes nothing |
| Sanitize.SanitizeIsSound | crates/seck-report/src/sanitize.rs:50-56 | the output is clean and a subsequence of the input, equals it if and only if it was clean, and is a fixed point |
| Sanitize.CleanIs | crates/seck-report/src/sanitize.rs:50-56 | what may be let through, by literal code points |
| Sanitize.SanitizeIsByPiece | crates/seck-report/src/sanitize.rs:12-60 | of a text cut into single characters, escapes that introduce nothing, complete sequences and an unfinished one, exactly the clean single characters are kept |
| Sanitize.EveryTextIsCut | crates/seck-report/src/sanitize.rs:12-60 | every text can be cut so |
| Strace.NthQuotedString | crates/seck-trace-check/src/strace_parse.rs:117-149 | in bounds on every input; the n-th quoted string if and only if there are that many |
| Strace.FindClose | crates/seck-trace-check/src/strace_parse.rs:124-143 | the closing quote, respecting backslash pairs, or the end of the text |
| Strace.LexPrinted | crates/seck-trace-check/src/strace_parse.rs:117-149 | text printed from well-escaped bodies and quote-free gaps lexes into those bodies |
| Strace.LexIsComplete | crates/seck-trace-check/src/strace_parse.rs:117-149 | every text is printed from what it lexes into, plus a rest with no complete string |
| Strace.EscapeRoundTrip | crates/seck-trace-check/src/strace_parse.rs:126-130 | escaped text is well escaped and unescapes to the original |
| Strace.NthOfPrinted | crates/seck-trace-check/src/strace_parse.rs:117-149 | asking a printed list for index n gives the n-th body, still escaped |
| StraceLines.LineRoundTrip | crates/seck-trace-check/src/strace_parse.rs:39-109 | behind any white space or process prefix, and amid arbitrary other text, each recognised call is read back, its strings still escaped and an execution's arguments dropped |
| StraceLines.TokenParses | crates/seck-trace-check/src/strace_parse.rs:112-114 | every 32-bit descriptor printed before the first comma is read back |
| StraceForms.LineIsExact | crates/seck-trace-check/src/strace_parse.rs:38-109 | every line is taken for an effect if and only if it records that effect: a lead, one of the seven names, and the quoted string, leading number or address fields it needs; otherwise it is ignored |
| StraceForms.IgnoredExactly | crates/seck-trace-check/src/strace_parse.rs:45-109 | a body is ignored if and only if it starts with none of the names or what its call must show is missing |
| StraceForms.NamesAre | crates/seck-trace-check/src/strace_parse.rs:48-108 | the names and markers, letter by letter |
| StraceForms.LeadingIntIs | crates/seck-trace-check/src/strace_parse.rs:112-114 | the leading number: a signed 32-bit numeral between white space, up to the first comma |
| StraceForms.BlankIsSpaces | crates/seck-trace-check/src/strace_parse.rs:39-47 | what is trimmed away is white space by its Unicode code points |
| StraceLines.EscapeKeepsCanaries | crates/seck-trace-check/src/checker.rs:71-76 | exactly which canaries the escape neither hides nor makes up in any text: at most the first character is a quote or backslash, and it is not a lone backslash |
| Recordings.RecordingVerdict | crates/seck-trace-check/src/strace_parse.rs:34-109 | for any canary, the check of a recording, with any unrecognised lines between the calls, accepts if and only if no call leaks as the parser shows it |
| Recordings.QuotedCanaryIsMissed | crates/seck-trace-check/src/strace_parse.rs:87-94 | a canary with a quote in it, written to descriptor 2, goes unseen |
| Recordings.RecordingIsChecked | crates/seck-trace-check/src/strace_parse.rs:34-109 | a canary survives the escape if and only if, on every recording with any unrecognised lines in it, the check accepts exactly when the calls leak, if at all, only through arguments or environments of executions |
| TraceCheck.CheckTrace | crates/seck-trace-check/src/checker.rs:29-69 | the nested loops with early returns equal the first-violation specification |
| TraceCheck.ContainsMeans | crates/seck-trace-check/src/checker.rs:71-76 | a canary that is not empty is found wherever it stands |
| TraceCheck.CheckIsExact | crates/seck-trace-check/src/checker.rs:29-76 | accepted if and only if no effect leaks; otherwise the error describes the earliest effect that does |
| TraceCheck.CanaryAgrees | proof/Seck/Checker.lean:9-22 | with a canary that marks no untainted string there is no false alarm; if it also marks every tainted one, the checker decides the tagged proposition |
| TraceCheck.ProgramsPassTheCheck | proof/Seck/IOBoundary.lean:155-159 | for corresponding programs, any interleaving satisfies the proposition and the Boolean checker, and its recording passes the canary check |
| Boundary.CheckerIsCorrect | proof/Seck/Checker.lean:9-22 | the Boolean checker is true if and only if the proposition holds; tainted writes may go to descriptors 3 and 5 |
| Boundary.TracesShow | proof/Seck/HostModel.lean:31-36 | step by step, what is seen of host and reader: piped bytes written to descriptor 3, reports to 5, opens and executions as asked, and no other |
| Boundary.InterleavingsSatisfyBoundary | proof/Seck/IOBoundary.lean:155-159 | an interleaving of host and reader traces satisfies the boundary if and only if both meet the correspondence conditions |
| Walk.Walker.WalkInner | crates/seck-host/src/walker.rs:47-96 | one node: the accumulators and the error are those of visiting it in order |
| Walk.Walker.WalkChildren | crates/seck-host/src/walker.rs:60-66 | the loop over a directory's entries, with the count check before each |
| Walk.WalkTree | crates/seck-host/src/walker.rs:40-45 | the files found or the first error |
| Walk.WalkOutcome | crates/seck-host/src/walker.rs:47-96 | under any limits and from any accumulators: success if and only if every visit passes its check given the files before it; then found files and 64-bit total are exactly those visited |
| Walk.WalkIsComplete | crates/seck-host/src/walker.rs:40-96 | under any limits, a successful walk returns exactly the regular files reachable without symbolic links, in order, within the count and per-file limits, their 64-bit total within the total limit |
| Walk.WalkIsBounded | crates/seck-host/src/walker.rs:68-78 | the true total stays within the total limit on every successful walk if and only if the other limits let no file take the running total past 64 bits; the default limits do not |
| Walk.SingleFileIgnoresCount | crates/seck-host/src/walker.rs:59-67 | a single-file root is accepted if and only if its size is, whatever the count limit |
| Walk.WalkBlames | crates/seck-host/src/walker.rs:47-96 | a walk fails with an error if and only if its first visit at fault has that fault: count, file size, 64-bit total, resolution or listing, in the order of the checks |
| Walk.VisitsAreReachable | crates/seck-host/src/walker.rs:47-96 | what is checked is exactly what entering directories reaches: each regular file under its path, and each unreadable node |
| Walk.EveryEntryIsCounted | crates/seck-host/src/walker.rs:60-66 | the count is checked once for each directory entry, also for those passed over |
| FileSet.ReadFile | crates/seck-host/src/fileset.rs:39-51 | however the file is handed out, a prefix of it, as long as the file or the recorded size, whichever is less |
| FileSet.BuildFileset | crates/seck-host/src/fileset.rs:36-59 | one entry per walked file, in order, with its path, its recorded size, and a prefix of what the file holds when it is read |
| FileSet.WalkedFits | crates/seck-host/src/walker.rs:14-22 | after a walk under default limits the file set fits the wire if and only if paths are short enough and no file shrank |
| FileSet.LimitsLineUp | crates/seck-proto/src/lib.rs:33-41 | then the reader accepts the stream and sees each file under its path with its own bytes up to the recorded size, and the stream has at most 309,515,472 bytes |
| Pipeline.RunPass | crates/seck-pipeline/src/analyst.rs:9-25 | one pass: a load at temperature zero with the role's seed and otherwise the caller's settings, then, if it succeeded, one generation |
| Pipeline.Run | crates/seck-pipeline/src/lib.rs:30-101 | the run, against any history-dependent backend, makes the calls and returns the result of a state machine over the replies |
| Pipeline.AuditAndJudge | crates/seck-pipeline/src/lib.rs:71-101 | the same for the audit passes and the judge |
| Pipeline.AuditAgain | crates/seck-pipeline/src/lib.rs:73-83 | the second auditor of a paranoid run: its pass, and how the two outputs combine |
| Pipeline.RunJudge | crates/seck-pipeline/src/lib.rs:88-100 | the judge's pass, and the result of the run |
| Pipeline.TraceIsByPass | crates/seck-pipeline/src/auditor.rs:27-34 | each pass is two calls: a load at temperature zero with its own role's seed and the caller's model, token limit and context window, and directly after it the generation from its prompt |
| Pipeline.CallTrace | crates/seck-pipeline/src/lib.rs:30-101 | on every run, completed or not, the exact calls: those of the passes answered and, of a failed run, one or both calls of the next; a completed run's roles and prompts are determined, with one or two generations when lenient and three to five otherwise |
| Pipeline.AuditMeaning | crates/seck-pipeline/src/lib.rs:71-100 | unless lenient, the flags are those of every auditor reply in order, the audit's text is that of one auditor or of both under their labels, and the judge's text and verdict are those of the last reply |
| Pipeline.AuditorMeaning | crates/seck-pipeline/src/auditor.rs:35-50 | an auditor's reply passes if and only if its first line, trimmed and in upper case, starts with `NO`; its flags are the strings of the first line that lists flags |
| Pipeline.StringsAre | crates/seck-pipeline/src/auditor.rs:44-48 | the strings of a flag list are kept in order, other items passed over |
| Pipeline.PromptMeaning | crates/seck-pipeline/src/lib.rs:37-89 | what each pass is shown: the caller's prompt, on a retry with the note after it; the first reply between the auditor's labels; the first reply and the audit's text in the judge's template |
| Pipeline.VerdictMeaning | crates/seck-pipeline/src/judge.rs:31-39 | disagreement if and only if the first line contains that word's stem; agreement if and only if it contains its own stem and no negating prefix |
| Judging.ReplaceAround | crates/seck-pipeline/src/judge.rs:27-29 | text on either side of a character the placeholder lacks is replaced separately |
| Judging.ReplaceKeeps | crates/seck-pipeline/src/judge.rs:27-29 | replacing changes nothing if and only if there is nothing to replace or it is replaced by itself |
| Judging.JudgePromptIs | crates/seck-pipeline/src/judge.rs:27-29 | the filled template for all texts, the analyst's under its label and then the auditor's under its own; the judge sees the analyst's own text if and only if it contains no auditor placeholder or the auditor's text is that placeholder |
| Pipeline.CompletedRoles | crates/seck-pipeline/src/lib.rs:37-89 | the roles of a completed run, in order |
| TextLines.LinesAre | crates/seck-audit/src/verify.rs:31 | Rust's `lines`: a break ends a line, with a carriage return before it or without; an unterminated rest is a line |
| Pipeline.ResultMeaning | crates/seck-pipeline/src/lib.rs:40-101 | findings come from the first analyst reply with a findings array; the audit passes if and only if every auditor said no; what is reported as the analyst's text is the first reply |

## Left out

- The readers' inference and report contents: in `Modes` a report is an arbitrary function of what the reader received; the two prompt builders are in `Prompt` and `Readers`. A reader that fails after accepting its input, in inference or in writing JSON, is not distinguished.
- UTF-8, JSON, hashing and signing internals: arbitrary functions with stated laws; serde's duplicate-key and number rules are therefore not modelled.
- Descriptors held by a child are released when it exits; that the bytes reader closes descriptor 7 a moment before it exits is not distinguished. Buffering in `BufReader` and `BufWriter` is folded into reads and writes of arbitrary size; so where the inference process keeps no copy of the first pipe's read end, and more than a capacity and the buffer's 8,192 bytes follow the place of a rejection, the hanging run of `Modes.ModeBHangs` takes a larger read than the buffer would.
- Failing system calls: a read never fails, a write may; interrupted calls, and failing pipe, dup2 or spawn calls, are not modelled.
- Wire.ReadFrames: the reservation of capacity before contents are read is not modelled; the loops of the source's one function are three methods here.
- Walk.WalkIsComplete: the order in which a directory is listed is the order of the tree's children; file-system races are not modelled.
- FileSet.BuildFileset: each file is its own descriptor positioned at its start, as the walk opens it.
- Audit.Writer.Append: one day's file and whole-line appends; the clock, midnight rollover, permissions and torn writes are not modelled.
- Recordings.RecordingIsChecked: the split of the input into lines is not repeated here, lines are given; what strace itself prints is not claimed.
- StraceLines.LineRoundTrip: trimming knows the Unicode white-space characters by their UTF-8 bytes, and lines are taken to be valid UTF-8.
- Pipeline.Run: the seed derivation, case mapping and trimming of a reply are arbitrary functions; the judge's justification line, which the result does not carry, is dropped.
- Sandbox backends, cryptographic primitives, key handling, model backends, the Windows orchestrator, command line, terminal, web, desktop and mobile front ends: foreign calls, user interface and plumbing.
- HTML and JSON report rendering, model recommendation, canary counting and pinning: each is a table look-up, a template or a single comparison, with no state and no interplay with the path modelled here.
