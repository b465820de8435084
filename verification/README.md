# Verified model of e-navigator's context propagation, identity fences and profilers

e-navigator observes processes with eBPF programs. Four of its jobs are delicate enough to be worth
proofs, and this project models them in Dafny and proves what they promise.

* **Trace context in HTTP/1 requests.** The kernel side plans, with byte-at-a-time automata, where a
  `traceparent` field may be inserted into an outgoing request; inserts it while the message is sent;
  and takes the context over from inbound requests. A host library does the same on slices. The two
  were written separately, the automata under the limits of the eBPF verifier.
* **Identity fences.** Decrypted TLS bytes are attributed to connections although descriptors,
  handles and process ids are reused, and stack walkers may trust registered mappings only while no
  system call is changing them.
* **Chunked walks and captures.** Stack walks and scatter-gather captures run in tail-called rounds.
* **Accounting.** Peer-flow byte counters are bounded and expire; stored flamegraphs are decoded and
  weighed.

## How it is organised

| files | what they hold |
|---|---|
| `Bytes`, `Ows`, `Fnv` | byte strings, trimming of blanks, the FNV-1a fold |
| `ChunkedBody`, `ChunkedStability`, `Http1`, `TraceContext`, `Insertion`, `Tracestate`, `TracestateCopy` | the host library: functions for what it computes, its cursor loops proved to compute them, and its promises |
| `BpfScan`, `BpfRequestLine`, `BpfHeaders`, `BpfChunked`, `BpfPlan`, `BpfTraceparent`, `BpfTraceparentValue`, `BpfTracestate`, `BpfTracestateCopy` | the kernel-side automata: `Scan...` functions say over positions what is accepted, the automata are proved to compute exactly that |
| `RequestLineAgreement`, `HeaderAgreement`, `ChunkedAgreement`, `PlannerAgreement`, `TracestateAgreement`, `InboundTracestate`, `InboundLists`, `ScanShift`, `InboundContext` | the two sides compared, for every input |
| `MessageMutation`, `MutationRoundTrip`, `ThreadContexts`, `TraceHops` | mutation of a message, what its receiver sees, which thread's work a request continues, and how a trace goes from hop to hop |
| `MappingFence`, `TlsIdentity` | state machines over every interleaving of hooks |
| `IovecCapture`, `IovecCompaction`, `UnwindRows`, `Unwinder`, `RateLimit` | captures, walkers and the sample limit |
| `PeerFlows`, `Flamegraph`, `FlameTree` | accounting |

`dafny verify dfyconfig.toml` checks the whole project.

## Main results

* **The two planners agree** (`PlannerAgreement.PlansAgree`). Whenever the automata give an insertion
  point the host library gives the same one, outbound and inbound. There is one exception and it is
  exact: the automata read capital hexadecimal chunk sizes, which the host calls invalid;
  `CapitalSizesDiffer` exhibits a request. `HostPlansFound` is the converse, and exact too: a point
  of the host's is found if and only if no field is misread (its name has the hash of another, or an
  upgrade token stands between blanks) and a chunked body is no dead end (a size of more than 32
  bits, an unfinished last line that nothing can complete, a trailer refused for its hash).
  `DeadEndsDiffer` and `BlankTokensDiffer` exhibit requests.
* **The one-pass list validator is exactly characterised** (`TracestateAgreement.ValidatorsAgree`): it
  accepts a list if and only if the host does, its two 64-bit masks tell the keys apart, and no tab
  follows a key. In particular it never accepts a repeated key. `KeysConfused` and `TabsDiffer`
  exhibit lists that only the host accepts.
* **The list of an inbound request is taken over exactly when** no other name hashes like tracestate,
  every value fits the buffer with the blanks behind it, the masks tell the keys apart and no tab
  follows a key (`InboundLists.HostListTaken`, `InboundContext.ListsAgree`).
* **A context travels unchanged** (`InboundContext.ContextTravels`). What one kernel side plans, from
  all of a message or from its captured part, and inserts, another that receives the message takes
  over: same trace, same span, same flags, same list. The one condition is that the message is
  acceptable without the inserted fields and small enough with them. `TraceHops.TraceContinues`
  chains this with the thread contexts: the trace, flags and list of a request that a thread serves
  reach whoever receives the requests it sends meanwhile.
* **A message is never half changed** (`MessageMutation.Propagate`), whatever the kernel's push, pull
  and pop do and whatever fresh room contains.
* **A mapping check means what it says** (`MappingFence.NothingBetweenMatches`), in every interleaving
  of the hooks' and userspace's single memory accesses, with the check's own three reads spread apart.
* **TLS bytes belong to the connection they are attributed to** (`TlsIdentity.Attribution`), although
  descriptors and handles are freed and reused, as long as no connection record is put back after
  its connection has ended.
* **A request is parented on the right inbound request** (`ThreadContexts.ParentIsFreshOwner`).
* **Decoding inverts encoding** for flamegraphs (`FlameTree.EncodingAccepted`), chunked bodies
  (`ChunkedStability.EncodedBodyComplete`) and traceparent values (`TraceContext.ParseFormatted`).

## Premises

* Hook invocations of one thread do not overlap. In `ThreadContexts`, `TlsIdentity` and the walkers a
  whole hook is one step, except that in `TlsIdentity` the update of a record's byte counts is two, a
  read and an insertion; in `MappingFence` every access to shared memory is one. Memory is
  sequentially consistent and 64-bit generations do not wrap around.
* Numbers that the source reads from clocks, user memory, packets, other maps or probe arguments are
  parameters. So is whether an insertion into a map succeeds, except that a process generation can
  always be created: without one nothing is captured.
* `TlsIdentity`: closing a descriptor is observed before it can be reused, no other thread closes a
  descriptor while a connect on it is in progress, and the group leader's exit is the last event of its
  process. A second successful connect on an open descriptor is the same socket.
* `MappingFence`: the mappings of a process change only inside the hooked system calls, and enrolment
  scans every marker that is present throughout the scan.
* `IovecCapture`, `IovecCompaction`: user memory stays readable and unchanged during a capture.

## Model

| member | source | states |
|---|---|---|
| Bytes.ScanCrlf | crates/e-navigator-context-propagation/src/lib.rs:827-839 | the one-pass scan with one remembered bit finds the first CRLF |
| Http1.FindBoundaries | crates/e-navigator-context-propagation/src/lib.rs:568-588 | the end of the request line and of the header section, or the reason there is none |
| Http1.ScanContentLength | crates/e-navigator-context-propagation/src/lib.rs:732-746 | the overflow-checked loop computes the decimal value, or refuses exactly what is not a number of machine size |
| Http1.ReadFields | crates/e-navigator-context-propagation/src/lib.rs:121-179 | the cursor loop over the section reads its lines in order, first refusal first |
| Http1.CheckBody | crates/e-navigator-context-propagation/src/lib.rs:181-212 | the framing checks in order, with a captured chunked body classified by the loop |
| Http1.PlanRequest | crates/e-navigator-context-propagation/src/lib.rs:102-219 | the planner's decision for every prefix, total length and direction, with the reason of every bypass |
| ChunkedBody.ClassifyTrailers | crates/e-navigator-context-propagation/src/lib.rs:276-310 | the trailer loop classifies what follows the last chunk |
| ChunkedBody.ClassifyChunkedBody | crates/e-navigator-context-propagation/src/lib.rs:229-274 | the chunk loop classifies a captured body |
| ChunkedStability.ClassificationSettles | crates/e-navigator-context-propagation/src/lib.rs:229-409 | invalid and trailing data stay so under any extension; a complete body followed by anything is trailing data |
| ChunkedStability.StrictPrefixIncomplete | crates/e-navigator-context-propagation/src/lib.rs:229-409 | every strict prefix of a complete body is incomplete |
| ChunkedStability.EncodedBodyComplete | crates/e-navigator-context-propagation/src/lib.rs:229-353 | the encoding of any list of chunks with lowercase sizes is complete |
| TraceContext.WriteHex | crates/e-navigator-context-propagation/src/lib.rs:761-767 | writes the two digits of every byte in place and nothing else |
| TraceContext.ReadHex | crates/e-navigator-context-propagation/src/lib.rs:748-759 | succeeds exactly on lowercase digits and stores their bytes |
| TraceContext.FormatTraceparentHeader | crates/e-navigator-context-propagation/src/lib.rs:554-566 | the seventy bytes of the header field |
| TraceContext.ParseFormatted | crates/e-navigator-context-propagation/src/lib.rs:715-730 | parsing a formatted value gives the context back, and refuses exactly the contexts with an all-zero identifier |
| TraceContext.FormatParsed | crates/e-navigator-context-propagation/src/lib.rs:715-730 | formatting what was parsed gives the value back |
| Insertion.ReadTraceparent | crates/e-navigator-context-propagation/src/lib.rs:411-431 | the first traceparent field of a well-formed request, parsed |
| Insertion.InsertedHead | crates/e-navigator-context-propagation/src/lib.rs:73-100 | inserting where the planner says adds one line after the request line and moves nothing else |
| Insertion.InsertionRoundTrip | crates/e-navigator-context-propagation/src/lib.rs:73-219 | after insertion the context is read back, replanning bypasses as an existing traceparent, and inbound validity is unchanged |
| Tracestate.KeySeenBefore | crates/e-navigator-context-propagation/src/lib.rs:693-713 | true exactly if an earlier member has the key |
| Tracestate.CheckMember | crates/e-navigator-context-propagation/src/lib.rs:524-542 | the first fault of a member, or its key |
| Tracestate.ValidateTracestate | crates/e-navigator-context-propagation/src/lib.rs:504-552 | the first fault of a list, members in order |
| Tracestate.AcceptedLists | crates/e-navigator-context-propagation/src/lib.rs:504-552 | accepted if and only if of admissible length, at most 32 well-formed members, and no two keys equal |
| TracestateCopy.AppendValue | crates/e-navigator-context-propagation/src/lib.rs:475-492 | a field value joined to the list in the caller's buffer, or refused for its length |
| TracestateCopy.CopyFields | crates/e-navigator-context-propagation/src/lib.rs:449-494 | the values of all tracestate fields in wire order, joined in the buffer |
| TracestateCopy.CopyTracestate | crates/e-navigator-context-propagation/src/lib.rs:436-501 | the validated list of a request, or the error |
| Fnv.TraceparentHash | crates/e-navigator-ebpf-programs/src/main.rs:154-156 | the constant is the FNV-1a fold of the lowercase name |
| Fnv.TracestateHash | crates/e-navigator-ebpf-programs/src/main.rs:154-157 | the constant is the FNV-1a fold of the lowercase name |
| Fnv.UpgradeHash | crates/e-navigator-ebpf-programs/src/main.rs:154-158 | the constant is the FNV-1a fold of the lowercase name |
| Fnv.ConnectionHash | crates/e-navigator-ebpf-programs/src/main.rs:154-159 | the constant is the FNV-1a fold of the lowercase name |
| BpfRequestLine.RunRequestLine | crates/e-navigator-ebpf-programs/src/main.rs:5153-5250 | the automaton finds the end of a valid request line and refuses every other |
| BpfHeaders.HeaderAutomaton.Step | crates/e-navigator-ebpf-programs/src/http_propagation.rs:86-278 | one byte keeps the state in step with what has been read, or decides the section rightly |
| BpfHeaders.RunHeaders | crates/e-navigator-ebpf-programs/src/http_propagation.rs:43-84 | the automaton accepts exactly the sections described over positions, with their end and framing |
| BpfChunked.ChunkAutomaton.Step | crates/e-navigator-ebpf-programs/src/http_propagation.rs:309-454 | one byte keeps the state in step with what has been read, or decides the body rightly |
| BpfChunked.RunChunks | crates/e-navigator-ebpf-programs/src/http_propagation.rs:281-307 | valid at the end of a body, refused at the first impossible byte, pending otherwise |
| BpfPlan.PlanRequest | crates/e-navigator-ebpf-programs/src/http_propagation.rs:459-483 | the insertion point of the kernel-side planner |
| BpfPlan.AcceptInbound | crates/e-navigator-ebpf-programs/src/http_propagation.rs:463-465 | which inbound requests are acceptable |
| RequestLineAgreement.AcceptedLine | crates/e-navigator-ebpf-programs/src/main.rs:5153-5250 | a request line the automaton accepts, the host accepts, with the same end |
| RequestLineAgreement.AcceptedByHost | crates/e-navigator-context-propagation/src/lib.rs:590-621 | a request line the host accepts, the automaton accepts |
| HeaderAgreement.HostTokenSeen | crates/e-navigator-context-propagation/src/lib.rs:785-805 | every upgrade token the host finds, the automaton finds |
| HeaderAgreement.LinesSound | crates/e-navigator-ebpf-programs/src/http_propagation.rs:86-278 | a section the automaton accepts, the host reads to the same end, lengths and framing |
| HeaderAgreement.LinesComplete | crates/e-navigator-ebpf-programs/src/http_propagation.rs:86-278 | a section the host reads is accepted if and only if none of its fields is misread |
| HeaderAgreement.WhyMisread | crates/e-navigator-ebpf-programs/src/http_propagation.rs:86-278 | of the fields the host accepts, only those are misread whose name has the hash of another name, and Connection fields with an upgrade token between blanks |
| ChunkedAgreement.ChunksSound | crates/e-navigator-ebpf-programs/src/http_propagation.rs:309-454 | a body that is not refused is classified alike by the host, or invalid there for a capital digit and only for that |
| ChunkedAgreement.ChunksComplete | crates/e-navigator-ebpf-programs/src/http_propagation.rs:309-454 | a body the host finds complete or incomplete is refused if and only if it is a dead end, and else valid or pending as the host says |
| PlannerAgreement.PlansAgree | crates/e-navigator-ebpf-programs/src/http_propagation.rs:468-483 | every insertion point of the automata is the host's, except for capital chunk sizes, where the host refuses the body |
| PlannerAgreement.HostPlansFound | crates/e-navigator-context-propagation/src/lib.rs:102-219 | an insertion point of the host is the automata's if and only if no field is misread and a chunked body is no dead end; else they give none |
| PlannerAgreement.CapitalSizesDiffer | crates/e-navigator-ebpf-programs/src/main.rs:5349-5356 | a concrete request that the automata allow and the host refuses |
| PlannerAgreement.DeadEndsDiffer | crates/e-navigator-ebpf-programs/src/http_propagation.rs:309-454 | two concrete requests that the host allows and the automata refuse: a lone CR for a body, and a chunk of 2^32 bytes |
| PlannerAgreement.BlankTokensDiffer | crates/e-navigator-ebpf-programs/src/http_propagation.rs:86-278 | a concrete request, with an upgrade token between blanks in its Connection field, that the host allows and the automata refuse |
| ScanShift.LinesShift | crates/e-navigator-ebpf-programs/src/http_propagation.rs:86-278 | a header section that has moved along is read as before, its end moved as far |
| ScanShift.ChunksShift | crates/e-navigator-ebpf-programs/src/http_propagation.rs:309-454 | a chunked body that has moved along is decided as before |
| ScanShift.CapturedPlan | crates/e-navigator-ebpf-programs/src/http_propagation.rs:468-483 | a point planned from the captured part of a message is the one planned from all of it |
| BpfTraceparent.FieldAutomaton.Step | crates/e-navigator-ebpf-programs/src/main.rs:5460-5542 | one byte keeps the state in step with what has been read, or decides the section rightly |
| BpfTraceparent.RunTraceparent | crates/e-navigator-ebpf-programs/src/main.rs:5411-5449 | where the value of the only traceparent field starts, if it has fifty-five bytes |
| BpfTraceparentValue.ParseValue | crates/e-navigator-ebpf-programs/src/main.rs:5545-5632 | the byte-at-a-time parser reads what the host's parser reads |
| InboundContext.ExtractInbound | crates/e-navigator-ebpf-programs/src/main.rs:5411-5458 | the context and list taken over from an inbound request |
| InboundContext.ExtractionAgrees | crates/e-navigator-ebpf-programs/src/main.rs:5411-5458 | for an acceptable request it is the host's context if the field occurs once, and none otherwise |
| InboundContext.ListsAgree | crates/e-navigator-ebpf-programs/src/main.rs:5452-5458 | the list taken over is the host's if and only if names are faithful, padded values fit, the masks tell the keys apart and no tab follows a key |
| InboundContext.InboundKept | crates/e-navigator-ebpf-programs/src/http_propagation.rs:459-483 | a planned request with its generated fields is acceptable to a receiver if and only if it was without them |
| InboundContext.ContextTravels | crates/e-navigator-ebpf-programs/src/main.rs:5411-5458 | a message planned from its captured part, given its fields and received: exactly the sender's context and list are taken over, or nothing if the message without them was not acceptable or with them is too large |
| InboundContext.TakenOverIsSendable | crates/e-navigator-ebpf-programs/src/main.rs:5411-5458 | what is taken over is a usable context and no list or a valid one without blanks at its ends, so that it can be sent on |
| BpfTracestate.CaptureKeyByte | crates/e-navigator-ebpf-programs/src/main.rs:5915-5950 | a key byte is accepted exactly while some valid key could still begin this way |
| BpfTracestate.FinishKey | crates/e-navigator-ebpf-programs/src/main.rs:5953-5970 | a key is accepted exactly if valid, within the member limit and not in the masks |
| BpfTracestate.ListAutomaton.Step | crates/e-navigator-ebpf-programs/src/main.rs:5847-5912 | one byte keeps the state in step with what has been read, or decides the list rightly |
| BpfTracestate.RunTracestate | crates/e-navigator-ebpf-programs/src/main.rs:5819-5845 | the one-pass validator accepts exactly the lists described over positions |
| TracestateAgreement.NotedCollides | crates/e-navigator-ebpf-programs/src/main.rs:5961-5968 | a key once noted in the masks is recognised ever after |
| TracestateAgreement.MembersSound | crates/e-navigator-ebpf-programs/src/main.rs:5847-5982 | the members of an accepted list are faultless to the host and told apart by the masks |
| TracestateAgreement.ValidatorsAgree | crates/e-navigator-ebpf-programs/src/main.rs:5819-5982 | accepted if and only if the host accepts, the masks tell the keys apart and no tab follows a key |
| TracestateAgreement.TabsDiffer | crates/e-navigator-ebpf-programs/src/main.rs:5847-5912 | a concrete list, with a tab behind its value, that only the host accepts |
| TracestateAgreement.KeysConfused | crates/e-navigator-ebpf-programs/src/main.rs:5953-5970 | a concrete list of two different keys with the same mask bits that only the host accepts |
| BpfTracestateCopy.CaptureByte | crates/e-navigator-ebpf-programs/src/main.rs:5736-5767 | the buffer holds the joined list so far; invalid exactly when it would overflow |
| BpfTracestateCopy.CopyAutomaton.Step | crates/e-navigator-ebpf-programs/src/main.rs:5664-5733 | one byte keeps the state in step with what has been read, or decides the section rightly |
| BpfTracestateCopy.RunCopy | crates/e-navigator-ebpf-programs/src/main.rs:5635-5662 | the joined values of all fields that hash like tracestate, if none is empty and they fit |
| InboundTracestate.CopiesAgree | crates/e-navigator-ebpf-programs/src/main.rs:5635-5767 | a copied list that is accepted is the host's list for the same request if and only if no other name hashes like tracestate |
| InboundLists.HostListTaken | crates/e-navigator-ebpf-programs/src/main.rs:5635-5767 | the host's list is copied if and only if no other name hashes like tracestate and every value fits with the blanks behind it, and then accepted if and only if masks and tabs allow it |
| InboundLists.PaddingDiffers | crates/e-navigator-ebpf-programs/src/main.rs:5736-5767 | a concrete request whose list of three bytes the host copies and the kernel side gives up for the blanks behind it |
| InboundTracestate.AcceptedIsFieldValue | crates/e-navigator-ebpf-programs/src/main.rs:5847-5912 | an accepted list may be sent on in a header field |
| MessageMutation.MatchesCapture | crates/e-navigator-ebpf-programs/src/main.rs:4968-4993 | the message begins with the captured bytes |
| MessageMutation.CopyTracestate | crates/e-navigator-ebpf-programs/src/main.rs:4865-4953 | sixteen-byte blocks and single bytes together write the whole list, for every length up to 512 |
| MessageMutation.WriteFields | crates/e-navigator-ebpf-programs/src/main.rs:4853-4961 | every byte of the fresh room is overwritten with the generated fields |
| MessageMutation.Propagate | crates/e-navigator-ebpf-programs/src/main.rs:4732-4965 | a passed message is the original or the original with exactly the generated fields, the event says which, and a message is dropped only if a push could not be undone |
| MutationRoundTrip.MutatedHead | crates/e-navigator-ebpf-programs/src/main.rs:4784-4965 | the mutated request splits into the same request line, the generated lines, the same lines and the same body |
| MutationRoundTrip.ReceiverSeesContext | crates/e-navigator-ebpf-programs/src/main.rs:4732-4965 | a receiver extracts the generated context, and inbound validity is unchanged |
| ThreadContexts.OwnerOrigin | crates/e-navigator-ebpf-programs/src/main.rs:5990-6036 | a thread's owner comes from an inbound request of that thread that nothing has superseded |
| ThreadContexts.OwnerStays | crates/e-navigator-ebpf-programs/src/main.rs:6022-6069 | an activation that nothing has superseded is the thread's owner |
| ThreadContexts.ParentIsFreshOwner | crates/e-navigator-ebpf-programs/src/main.rs:4995-5059 | a planned request continues exactly the latest fresh inbound request of its thread with no later read, response, exit or exec, and else starts a trace |
| ThreadContexts.SpansDiffer | crates/e-navigator-ebpf-programs/src/main.rs:5019-5046 | if the supplied span ids are distinct, no two planned requests of a run share a span, none shares that of a server span, and two server spans are the same only if they are one activation |
| ThreadContexts.EachPlanOnce | crates/e-navigator-ebpf-programs/src/main.rs:6065-6109 | every planned request is output once, or destroyed, or still pending, and never two of these |
| TraceHops.PlanTravels | crates/e-navigator-ebpf-programs/src/main.rs:4995-5059 | whatever a thread has planned, in any run fed by real requests and usable seeds, the receiver of an acceptable message takes over |
| TraceHops.TraceContinues | crates/e-navigator-ebpf-programs/src/main.rs:5990-6036 | the trace, flags and list of the request that owns a thread, under the supplied span, are what the receiver of the thread's next request takes over |
| MappingFence.StepKeepsAgreement | crates/e-navigator-ebpf-programs/src/main.rs:1994-2130 | every single access keeps markers, phases and enrolment in agreement |
| MappingFence.StepKeepsCovered | crates/e-navigator-ebpf-programs/src/main.rs:2041-2092 | every single access keeps the pending count at least as large as the number of calls that have raised it |
| MappingFence.MatchMeansQuiet | crates/e-navigator-ebpf-programs/src/main.rs:2133-2138 | after a successful check of an issued generation no tracked call is changing a mapping, and none at all unless the poison count has risen since it was read |
| MappingFence.OneCheckIsNotEnough | crates/e-navigator-ebpf-programs/src/main.rs:2133-2138 | a concrete run in which a check succeeds while a call that could not publish its marker is executing |
| MappingFence.NothingBetweenMatches | crates/e-navigator-ebpf-programs/src/main.rs:1994-2138 | between two successful checks of one generation no mapping was being changed |
| MappingFence.FenceReopens | crates/e-navigator-ebpf-programs/src/main.rs:2072-2092 | unless an exec lost its marker, the pending count is zero whenever no call is under way |
| TlsIdentity.StepKeeps | crates/e-navigator-ebpf-programs/src/main.rs:3597-3634 | every step, a record put back harmlessly included, keeps the records of the current generation true of what is really open |
| TlsIdentity.PutKeeps | crates/e-navigator-ebpf-programs/src/main.rs:4652-4668 | putting a record back keeps them true if and only if its connection is still open or older than the generation |
| TlsIdentity.UndisturbedIsSteady | crates/e-navigator-ebpf-programs/src/main.rs:4652-4668 | that is so if nothing closes or reconnects the descriptor between the reading of a record and its putting back |
| TlsIdentity.GenerationStays | crates/e-navigator-ebpf-programs/src/main.rs:3597-3634 | a generation in force twice was in force all along, with no exec or exit between |
| TlsIdentity.InstanceStays | crates/e-navigator-ebpf-programs/src/main.rs:4214-4302 | a connection instance open twice was open all along, behind the same descriptor |
| TlsIdentity.BindingOrigin | crates/e-navigator-ebpf-programs/src/main.rs:3804-3895 | a handle's binding was made and recorded by a successful call while that instance was recorded, and has been in force ever since |
| TlsIdentity.UnbindStep | crates/e-navigator-ebpf-programs/src/main.rs:3826-3907 | freeing a handle, or recording a binding of it to another descriptor, ends the binding |
| TlsIdentity.CallOrigin | crates/e-navigator-ebpf-programs/src/main.rs:3949-3966 | a pending call was entered by its thread, and no entry that was recorded or stood for no connection has taken its place since |
| TlsIdentity.Attribution | crates/e-navigator-ebpf-programs/src/main.rs:3804-4102 | if records are put back harmlessly, emitted bytes belong to the instance bound to the handle, open at binding, entry, exit and throughout, with no exec or exit between; from binding to entry the handle was neither freed nor bound to another descriptor, and at the exit it is bound as before |
| TlsIdentity.LateRecordMisleads | crates/e-navigator-ebpf-programs/src/main.rs:4652-4668 | a concrete run in which a record put back too late attributes bytes to a closed connection |
| TlsIdentity.LostBindingMisleads | crates/e-navigator-ebpf-programs/src/main.rs:3892-3894 | a concrete run in which a handle whose new binding could not be recorded still stands for the old descriptor |
| IovecCapture.ComputeRound | crates/e-navigator-ebpf-programs/src/main.rs:6733-6780 | a measuring round leads to the totals of a measurement in one go |
| IovecCapture.EmitRound | crates/e-navigator-ebpf-programs/src/main.rs:6808-6895 | an emitting round extends the segments by the next whole slots, or by part of one and ends |
| IovecCapture.CaptureBounds | crates/e-navigator-ebpf-programs/src/main.rs:6733-6769 | the captured length is at most the limit and at most the measured length |
| IovecCapture.CapturesAll | crates/e-navigator-ebpf-programs/src/main.rs:6733-6769 | if every slot fits a segment and the limit allows it, everything measured is captured |
| IovecCapture.Capture | crates/e-navigator-ebpf-programs/src/main.rs:6733-6895 | the segments tile the announced captured length and are that prefix of the data, for every vector, bound and limit |
| IovecCompaction.CopySlot | crates/e-navigator-ebpf-programs/src/main.rs:8090-8157 | blocks and single bytes copy a capped buffer into its slot and touch no other |
| IovecCompaction.Compact | crates/e-navigator-ebpf-programs/src/main.rs:8020-8057 | overlapping moves join the three pieces in place, or refuse inconsistent lengths |
| IovecCompaction.CopySlots | crates/e-navigator-ebpf-programs/src/main.rs:7915-7975 | capture stops at the first slot that is missing or cut short |
| IovecCompaction.PiecesArePrefix | crates/e-navigator-ebpf-programs/src/main.rs:7915-7975 | the captured pieces, joined, are a prefix of the data |
| IovecCompaction.CaptureRequest | crates/e-navigator-ebpf-programs/src/main.rs:7915-8057 | the compacted request is a prefix of the data |
| UnwindRows.FindRow | crates/e-navigator-ebpf-programs/src/main.rs:3465-3495 | the bounded loop is the binary search of the module's rows |
| UnwindRows.SearchIsScan | crates/e-navigator-ebpf-programs/src/main.rs:3465-3495 | on sorted rows twenty steps give the answer of a linear scan, none before the first row or in a gap |
| Unwinder.UnwindRound | crates/e-navigator-ebpf-programs/src/main.rs:3321-3415 | a round ends the walk as a walk in one go would, or leaves the same walk to be done |
| Unwinder.Unwind | crates/e-navigator-ebpf-programs/src/main.rs:3303-3441 | the rounds give the frames and stop reason of a walk in one go, never the tail-call limit; a broken fence gives a prefix |
| Unwinder.WalkFollowsCalls | crates/e-navigator-ebpf-programs/src/main.rs:3321-3408 | if the registered rules describe a call chain, the walk reports exactly that chain, or its innermost frames up to the limit |
| Unwinder.CompleteWalkIsChain | crates/e-navigator-ebpf-programs/src/main.rs:3321-3408 | a walk that stops as complete has reported a whole call chain of the registered rules |
| Unwinder.StackPointerAdvances | crates/e-navigator-ebpf-programs/src/main.rs:3359-3365 | the stack pointer never goes back and moves at most 2^20 bytes a frame |
| Unwinder.WalkPython | crates/e-navigator-ebpf-programs/src/main.rs:3127-3213 | the rounds give the code objects and stop reason of a walk in one go; a broken fence gives a prefix |
| RateLimit.RateState.RateAllowed | crates/e-navigator-ebpf-programs/src/main.rs:2777-2794 | one request for a sample: the verdict and the new window |
| RateLimit.WindowBounded | crates/e-navigator-ebpf-programs/src/main.rs:2777-2794 | a window admits at most the limit, whether a call has begun it or it is the one before the first renewal |
| RateLimit.SlidingBound | crates/e-navigator-ebpf-programs/src/main.rs:2777-2794 | calls within less than a second of each other: at most twice the limit is admitted |
| PeerFlows.PeerFlowStore.ReclaimExpired | crates/e-navigator-generators/src/peer_flow_metrics.rs:205-225 | taking idle entries off the front of the index removes exactly the idle counters, and the index stays exact |
| PeerFlows.PeerFlowStore.Replace | crates/e-navigator-generators/src/peer_flow_metrics.rs:57-70 | counters and index change together |
| PeerFlows.PeerFlowMetricsGenerator.Observe | crates/e-navigator-generators/src/peer_flow_metrics.rs:47-97 | one flow summary: the new store and the metric emitted, with the key limit kept |
| PeerFlows.PeerFlowMetricsGenerator.ObserveOverflow | crates/e-navigator-generators/src/peer_flow_metrics.rs:119-152 | flows beyond the limit are counted by class |
| PeerFlows.BytesConserved | crates/e-navigator-generators/src/peer_flow_metrics.rs:47-152 | over every run, live, overflow and reclaimed bytes never exceed the accepted ones, and equal them below saturation |
| PeerFlows.CounterHistory | crates/e-navigator-generators/src/peer_flow_metrics.rs:47-97 | over every run a live counter is the saturated byte sum and the smallest time window of the flows of its key since the one that began it |
| PeerFlows.KeysBounded | crates/e-navigator-generators/src/peer_flow_metrics.rs:76-79 | over every run there are at most as many counters as the limit |
| Flamegraph.DecodeLevel | scripts/qualify_cpu_profiles.py:121-153 | the moving parent pointer accepts a level exactly if every entry has a parent and weights are conserved, and credits each entry by its path |
| Flamegraph.StoredQuality | scripts/qualify_cpu_profiles.py:110-156 | a graph is accepted exactly if its total is in range and its root, levels and leaves conserve weight; useful and unknown weights are sums over paths |
| Flamegraph.AcceptedNumbersFit | scripts/qualify_cpu_profiles.py:23-28 | every number of an accepted graph is a nonnegative 64-bit integer, so that the range check of each could refuse no more |
| Flamegraph.SelfWeightIsTotal | scripts/qualify_cpu_profiles.py:151-155 | conservation at every entry makes the self weights add up to the total, so the final comparison is redundant |
| Flamegraph.QualityBounded | scripts/qualify_cpu_profiles.py:148-150 | useful and unknown weight are each at most the total |
| Flamegraph.UniqueParent | scripts/qualify_cpu_profiles.py:138-146 | an entry of an accepted level lies inside exactly one entry of the level above |
| FlameTree.EncodingAccepted | scripts/qualify_cpu_profiles.py:23-156 | the level encoding of a positive-weight tree is accepted if and only if the tree is within the budgets, 64-bit weights among them, and then with the tree's own useful and unknown weights |

## Where the code and its description differ

* The one-pass mapping check reads the poison count, the generation and the pending count one after
  the other. A call whose marker could not be published between the first and the last read may be
  executing when the check succeeds; `OneCheckIsNotEnough` is such a run, `MatchMeansQuiet` states
  what holds nevertheless, and `NothingBetweenMatches` shows that it does not matter to a walker that
  checks again.
* The kernel-side chunk parser accepts capital hexadecimal digits, the host library does not
  (`CapitalSizesDiffer`). It refuses chunks of 2^32 bytes and more and some unfinished lines that the
  host tolerates (`DeadEndsDiffer`); `DeadEnd` says which.
* While blanks at the end of a tracestate field are read they take up room in the buffer, so the
  kernel side gives up some padded lists that the host copies (`PaddingDiffers`); `PaddedFits` says
  which.
* The byte counts of a connection are updated by reading its record and inserting a copy. A record
  inserted after its descriptor was closed and reused attributes bytes to the closed connection
  (`LateRecordMisleads`); `Attribution` holds of all runs without such an insertion.
* A binding of a handle, or the set-descriptor call that leads to it, may fail to be recorded. The
  handle then stands for its old descriptor (`LostBindingMisleads`), so `Attribution` speaks of
  recorded bindings.
* The kernel side splits Connection tokens at blanks too (`BlankTokensDiffer`), tells tracestate keys
  apart by two mask bits (`KeysConfused`) and takes no tab behind a member (`TabsDiffer`).

## Left out

- TlsIdentity.Attribution: an entry of a nested call that could not be recorded is not excluded between
  the entry and the exit, because the code then leaves the earlier record in place.
- MessageMutation.Propagate: leaves out the repeated bounds checks before each store, because once the
  first check has passed they cannot fail; the precondition of the store is their condition.
- MappingFence.StepKeepsAgreement, ThreadContexts.EachPlanOnce, TlsIdentity.StepKeeps: hooks are
  functions on a state value rather than methods on shared maps, because their runs interleave; map
  values that are updated through pointers are not modelled as aliases.
- Unwinder.Unwind and Unwinder.WalkPython: the per-processor scratch event is a value.
- Faulting user memory in the captures, and the Go TLS path, which uses the same identity guards
  with the goroutine in place of the handle.
- The byte counts themselves that a connection record carries.
- The removal of registered mappings and interpreter data when a generation is raised.
- Address-family, port, cgroup and process filters, beyond whether they let a record be stored.
- Tracepoint layouts, event formats, diagnostics, DNS, exec and TCP statistics, userspace loading,
  protocol decoding, sinks, correlation and configuration: field copying and input-output.
