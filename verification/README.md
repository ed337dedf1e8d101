# VCamdroid in Dafny

A model of the protocols and state machines of VCamdroid, the program that turns a phone into a PC's camera,
with proofs of what they keep. `dafny verify dfyconfig.toml` checks everything.

**Discovery.** The mDNS library writes compressed DNS names through a ring of sixteen earlier offsets and reads
them by following references under guards (sections 4.1.3 and 4.1.4 of RFC 1035, section 18.14 of RFC 6762,
sections 6.1 and 6.4 of RFC 6763). `DnsNames` holds the walkers, `DnsCompression` the writer as a function,
`DnsEncoder` the writer as code over a buffer and a table, `DnsText` what a name is as text, `DnsRoundTrip` the theorem that the two are inverse,
with the exact condition for one name and for any list of them. `DnsMessages` parses whole messages, `DnsAnswers`
and `DnsAnswerBuilder` build responses; `DnsResponse` (one record), `DnsMessageWriting` (sections and messages) and
`DnsConversation` (their receiver) prove exactly when what is built is what is parsed, and `DnsFamilies` that for
service names it always is. `DnsQuestions` does it for messages that repeat their questions, `DnsRoom` says how much
room is enough and what the table saves. `Discovery` is the browser, whose miss counters are a compact form of a three-cycle window.

**Video.** `Avcc` splits encoded samples into NAL units and frames them; `VideoServer` is the phone's server
with backpressure, its sends in two steps so that completions, ends and new connections may strike in between;
`VideoServerRuns` and `VideoBackpressure` hold the properties of all its runs; `VideoReceiver` is the PC's receiver over arbitrary
fragments (Annex B of ITU-T H.264, section 5.3.3.1 of ISO/IEC 14496-15); `VideoPath` joins them. `Scaler` is
the letterboxing scaler with its cached context and buffer.

**Control.** `Control` and `ControlStream` set the PC's command encoders against the phone's decoder and its
channel; `Activation` and `Descriptors` do the same for stream options, device descriptors and error reports, and
`ActivationPath` follows an activation from the user's choice to the phone;
`SettingsFile`, `SettingsMeaning`, `SettingsRoundTrip` and `SettingsPreserved` treat the settings file, with `Text` for lines,
integers and key order; `DeviceLists` the two parallel lists of devices; `AdaptiveBitrate` and `RecentHosts`
the two small controllers of the phone. `Bytes` and `ByteIO` hold integers on the wire and the byte reader and
writer.

Code that changes state is a class or a method over arrays, proved against a function; the laws are lemmas
about the functions. Shifts and masks are written as the division and remainder they compute. Integers are
unbounded where the program's own range cannot overflow, and cut explicitly where it casts.

## What holds only under a condition

- A compressed name reads back exactly when it is *whole*: labels of 1 to 191 bytes, at most 64 of them, and a
  first table hit, if any, on a whole earlier name (`NameReadsBackIff`). The table search accepts a stored name of
  which the wanted one is only the beginning (windows/3rdparty/mdns/mdns.h:697-699), and a label enters the table
  before the rest of its name is written (windows/3rdparty/mdns/mdns.h:761); `PrefixReadsWrong` and
  `RepeatedLabelLoops` are the two failures. A list of names, a record, a section and a response read back exactly
  when every name was whole when it was written (`NamesReadBackIff`, `RecordReadsIff`, `SectionThenIff`,
  `ResponseReadsBackIff`). Names with distinct labels that end in one label found nowhere else, as all service names
  ending in `local` do, always are (`FamilyResponseIsWhole`).
- Dotted text comes back with one trailing dot: `DottedLabelsOf`, `MakeThenExtract`.
- A TXT answer is announced by the header of a response and never written: `AnnouncedAreReceivedIff`. TXT strings are
  understood exactly when they are proper: `TextsParsedIff`.
- The video server looks up the connection and the flag at different moments, and a connection's end drops
  whichever connection is active. All streams stay well-formed exactly in the runs in which every write finds the
  flag right about the connection it writes to (`StreamsAreSoundIffFlagsAreRight`). Runs in which no reset strikes
  inside a send are among them (`SteadyRunsAreSound`); `ResetDuringSendLosesHeader` is a run that is not. Parameter
  sets and keyframes are kept in every run (`VitalNalsAreKept`), and everything is exactly when there was always room
  (`NothingIsDroppedIff`).
- The receiver refuses empty units and units over 16 MiB, and the splitter can yield empty ones; what is emitted
  ends at the first refused unit.
- Control packets must arrive whole: `DeliveredIffAligned`.
- Two phones with the same name and URL can be confused: `RemovalIsRightIff`, `TwinsAreConfused`.
- Settings names with newlines or equals signs do not survive: `SaveThenLoadIff`, `SessionHandsBackStates`. With
  device states not saved, a file is reproduced exactly when the loaded store is quiet (`OffIsAFixpointIff`); a
  bracket that is opened but not closed can change a global setting (`TornFileChanges`).
- Arguments wider than their fields, strings and lists over 65535, and negative activation values arrive as something
  else: `AskedIffInRange`, `ActivationReadsBackIff`, `DescriptorReadsBackIff`.
- Below 10 kbps the bitrate controller can never raise the bitrate: `HighRatesReachMaximumIff`.

## Where code and documentation disagree

The code is modelled in each case.

- ios/VCamdroidiOS/Sources/VCamdroidiOS/Networking/ControlPacketDecoder.swift:163-164 says that decoding stops
  when bytes are missing; it throws, and the channel drops its buffer.
- docs/PROTOCOL.md says that the first four bytes of the URL decide the device type; the parser looks at seven.
- android/app/src/main/java/com/darusc/vcamdroid/networking/DeviceDescriptor.kt:34 speaks of one byte for the
  number of filters; two are written.

## Model

| member | source | states |
|---|---|---|
| `DnsNames.GetNextSubstring` | windows/3rdparty/mdns/mdns.h:528-560 | One step of the walker over any bytes: the next label, the end, or a failure, with at most the allowed reference hops and never outside the message. |
| `DnsNames.StringSkip` | windows/3rdparty/mdns/mdns.h:562-580 | Success and end offset are those of the walk past the name; a failure leaves the offset alone. |
| `DnsNames.StringExtract` | windows/3rdparty/mdns/mdns.h:623-659 | Writes the dotted name cut at the capacity and advances exactly as a skip does; fails, writing nothing behind the capacity and leaving the offset, exactly when the name does not decode. |
| `DnsNames.StringEqual` | windows/3rdparty/mdns/mdns.h:582-621 | Compares by walking both names in step; on success both offsets advance as skips would, on failure neither moves. |
| `DnsNames.ExtractImpliesSkip` | windows/3rdparty/mdns/mdns.h:562-659 | On arbitrary bytes: whatever can be extracted can be skipped, to an end inside the message. |
| `DnsNames.SkipInBounds` | windows/3rdparty/mdns/mdns.h:562-580 | A skip always advances and never leaves the message. |
| `DnsNames.EqualIffSameNames` | windows/3rdparty/mdns/mdns.h:582-621 | Equal succeeds if and only if both names decode and agree label by label. |
| `DnsNames.CaseEqualPointwise` | windows/3rdparty/mdns/mdns.h:582-621 | Without NUL bytes labels agree exactly when they are the same letter by letter, ignoring case. |
| `DnsNames.ChainFoundIff` | windows/3rdparty/mdns/mdns.h:541-550 | A label behind a chain of references is found if and only if there are at most 16 of them and it lies in the message. |
| `DnsCompression.PutLabels` | windows/3rdparty/mdns/mdns.h:737-773 | Writing a name never touches what was written before it, failure included. |
| `DnsEncoder.StringTable.Add` | windows/3rdparty/mdns/mdns.h:705-717 | The ring of sixteen offsets after an addition, before and after it has wrapped. |
| `DnsEncoder.StoredNameMatches` | windows/3rdparty/mdns/mdns.h:661-703 | The inner comparison of the table search: the stored name begins with the wanted labels, no terminator being asked for. |
| `DnsEncoder.StringTableFind` | windows/3rdparty/mdns/mdns.h:661-703 | The first entry of the ring, in table order, whose stored name begins with the wanted one. |
| `DnsEncoder.WriteLabel` | windows/3rdparty/mdns/mdns.h:759-763 | One label written out and entered in the table before the rest of its name exists. |
| `DnsEncoder.WriteRef` | windows/3rdparty/mdns/mdns.h:730-735 | A two-byte reference to an earlier offset. |
| `DnsEncoder.MakeLabel` | windows/3rdparty/mdns/mdns.h:744-766 | One round of the loop: a reference that ends the name, no room, or a label written and entered, with what is still to come unchanged. |
| `DnsEncoder.StringMake` | windows/3rdparty/mdns/mdns.h:737-773 | Buffer, ring and data position after a name is written, for every buffer, table, name and lack of room. |
| `DnsText.LabelsOfDotted` | windows/3rdparty/mdns/mdns.h:737-773 | Any list of non-empty, dot-free labels, dotted, is cut into the same labels. |
| `DnsText.DottedLabelsOf` | windows/3rdparty/mdns/mdns.h:740-751 | The labels of any name, dotted, are the name again with one trailing dot: one is added if there is none, one of two is dropped, and the root name is empty. |
| `DnsText.MakeThenExtract` | windows/3rdparty/mdns/mdns.h:623-773 | Text in, text out: a name made and then extracted is the same text with one trailing dot, cut at the capacity, and extraction stops where making did, if the name is whole; otherwise its labels are not read back. |
| `DnsRoom.RingHoldsLatest` | windows/3rdparty/mdns/mdns.h:705-717 | After any additions the table holds the last sixteen offsets, each in the slot of its number modulo sixteen. |
| `DnsRoom.HitIsFirst` | windows/3rdparty/mdns/mdns.h:661-703 | A hit is the first entry in table order that matches, and there is none only if no entry matches. |
| `DnsRoom.AgainIsTwoBytes` | windows/3rdparty/mdns/mdns.h:661-773 | Compression: a name of at most sixteen labels that was whole takes two bytes when it is written again right behind. |
| `DnsRoundTrip.DecodeSpells` | windows/3rdparty/mdns/mdns.h:623-659 | A spelled-out chain of labels and references extracts exactly when it has at most 64 labels. |
| `DnsRoundTrip.ReadsBackIff` | windows/3rdparty/mdns/mdns.h:661-773 | From the middle of a name on, in any message that goes on from it and whatever is filled in later in front of it: what was written reads back exactly when its first table hit is whole. |
| `DnsRoundTrip.SkipsWritten` | windows/3rdparty/mdns/mdns.h:562-773 | Skipping a name that reads back ends where its writing ended. |
| `DnsRoundTrip.StaysGood` | windows/3rdparty/mdns/mdns.h:705-773 | Behind a name that reads back every ring entry, new ones included, points at a finished name. |
| `DnsRoundTrip.NameReadsBackIff` | windows/3rdparty/mdns/mdns.h:623-773 | One compressed name, any labels, any table of finished names, anywhere in a message: it extracts as itself if and only if its labels have 1 to 191 bytes, it has at most 64 of them and the first table hit was a whole earlier name; then a skip leads to its end and the table stays good. |
| `DnsRoundTrip.PrefixReadsWrong` | windows/3rdparty/mdns/mdns.h:697-699 | The first failing family by example: after "a.b", the name "a" reads back as "a.b". |
| `DnsRoundTrip.OwnRefLoops` | windows/3rdparty/mdns/mdns.h:761 | A reference to a label of the name being written never reads back, however the message goes on. |
| `DnsRoundTrip.RepeatedLabelLoops` | windows/3rdparty/mdns/mdns.h:761 | The second failing family by example: "a.a" cannot be read at all. |
| `DnsRoundTrip.RootedIsWhole` | windows/3rdparty/mdns/mdns.h:661-773 | The sufficient case: a name with distinct labels and the common last label always meets the condition. |
| `DnsRoundTrip.NamesReadBackIff` | windows/3rdparty/mdns/mdns.h:528-773 | Any list of names through one table, over any buffer contents and every wrap-around of the ring: each reads back at its own offset and skips to the next if and only if each in turn meets the condition for one name. |
| `DnsRoundTrip.FamilyIsAllWhole` | windows/3rdparty/mdns/mdns.h:528-773 | Names of one family meet it, however many there are. |
| `DnsRoundTrip.NameStable` | windows/3rdparty/mdns/mdns.h:528-659 | A readable name stays readable, with the same end, when the message grows. |
| `DnsMessages.ReadEntry` | windows/3rdparty/mdns/mdns.h:785-797 | The fixed part behind a name, as the entry handed to the callback. |
| `DnsMessages.RecordsParse` | windows/3rdparty/mdns/mdns.h:775-807 | The records of one section, in order, up to the one at which the callback stops, with the slices handed over and the final offset. |
| `DnsMessages.StoppedIsPrefix` | windows/3rdparty/mdns/mdns.h:798-801 | A callback that stops is handed what it would have been handed anyway, up to and including the first entry it stops at, and the offset is left in front of its data. |
| `DnsMessages.QueryReceive` | windows/3rdparty/mdns/mdns.h:1141-1192 | Header, questions and three sections of any bytes, for any callback; the total is the number of records handed over. |
| `DnsMessages.RecordsInOrder` | windows/3rdparty/mdns/mdns.h:775-807 | Within a section, for a callback that goes on: no more records than announced, slices inside the message, disjoint and increasing. |
| `DnsMessages.ReceivedSlicesAreOrdered` | windows/3rdparty/mdns/mdns.h:1127-1192 | Over a whole arbitrary message: ordered, disjoint, in-bounds slices, at most as many as the header totals. |
| `DnsMessages.RecordDataMeans` | windows/3rdparty/mdns/mdns.h:1503-1559 | PTR, SRV, A and AAAA data: read where it stands, or an empty name, zeros or the zero address when it is too short, of the wrong length or not all there. |
| `DnsMessages.RecordParseTxt` | windows/3rdparty/mdns/mdns.h:1561-1613 | The key/value strings of a TXT record, up to the capacity. |
| `DnsMessages.RecordParsePtr` | windows/3rdparty/mdns/mdns.h:1503-1511 | The target name, or nothing when the record is too short or cannot be read. |
| `DnsMessages.RecordParseSrv` | windows/3rdparty/mdns/mdns.h:1513-1533 | Priority, weight, port and target, or all zero when the record is too short. |
| `DnsResponse.PatchCarries` | windows/3rdparty/mdns/mdns.h:1237-1284 | Filling RDLENGTH in last leaves the fixed part as if the length had been known, and every other byte alone. |
| `DnsResponse.DataReadsIff` | windows/3rdparty/mdns/mdns.h:1240-1272 | The data of a record stands in the finished message, and the table stays good, if and only if its name meets the condition for one name. |
| `DnsResponse.RecordReadsIff` | windows/3rdparty/mdns/mdns.h:1211-1284 | A written record stands in any message that goes on from it, with its name, type, class, time to live, data and exact length, if and only if its names meet the condition. |
| `DnsResponse.TxtReadsIff` | windows/3rdparty/mdns/mdns.h:1298-1346 | The TXT records of a section stand in the message as one record with all their strings if and only if the name of the first meets the condition. |
| `DnsMessageWriting.SectionThenIff` | windows/3rdparty/mdns/mdns.h:1451-1467 | A message goes on with the records of a section, its one TXT record and more if and only if the names written for it meet the condition and the message goes on with more. |
| `DnsMessageWriting.CountIsItems` | windows/3rdparty/mdns/mdns.h:1348-1360 | The count of the plain records is the number of them written. |
| `DnsMessageWriting.ResponseStandsIff` | windows/3rdparty/mdns/mdns.h:1426-1473 | Behind the header a response holds its records, back to back and nothing else, if and only if every name was whole when it was written. |
| `DnsConversation.ItemParsed` | windows/3rdparty/mdns/mdns.h:775-807 | A record in the message is handed over as one entry ending where the next begins; the callback makes of it what was meant if and only if its TXT strings, if any, are proper. |
| `DnsConversation.TextsParsedIff` | windows/3rdparty/mdns/mdns.h:1561-1613 | The strings of a TXT record are read as meant if and only if each there is room for has a printable, non-empty key without an equals sign and at most 255 bytes. |
| `DnsConversation.ChainParsedIff` | windows/3rdparty/mdns/mdns.h:775-807 | Back-to-back records are handed over as exactly those records, tiling their bytes, and mean what was meant if and only if their strings are proper. |
| `DnsConversation.ResponseReadsBackIff` | windows/3rdparty/mdns/mdns.h:1127-1473 | Any response and any receiver: its records are handed over one for one without a gap if and only if every name was whole when written and the receiver does not wait for another identifier. |
| `DnsConversation.ResponseReadsBack` | windows/3rdparty/mdns/mdns.h:1127-1473 | A response whose names are whole, built over any buffer contents, is received section by section as its records in order, with exact counts and lengths that tile the message; names, types, classes, times to live and data are what was meant, TXT strings exactly when they are proper. |
| `DnsConversation.AnnouncedAreReceivedIff` | windows/3rdparty/mdns/mdns.h:1426-1473 | Every record the header announces is received if and only if the answer is not TXT; for a TXT answer one is missing. |
| `DnsQuestions.RecordsBehindQuestionsAreReceived` | windows/3rdparty/mdns/mdns.h:1155-1192 | Any message with any number of questions: every record announced behind them is handed over, in order, without a gap and under its identifier, unless the receiver waits for another one. |
| `DnsQuestions.SectionsBehindQuestionsAreUnderstood` | windows/3rdparty/mdns/mdns.h:1141-1192 | With exact counts they are handed over section by section and mean what was meant exactly when their TXT strings are proper. |
| `DnsQuestions.StopEndsTheMessage` | windows/3rdparty/mdns/mdns.h:798-801 | The entry a callback stops at is the last one handed over, unless it is the last announced of its section. |
| `DnsMessageWriting.HeaderStands` | windows/3rdparty/mdns/mdns.h:1434-1443 | A response says so in its header: identifier 0, flags 0x8400, no question, one answer, and the counts of its sections. |
| `DnsFamilies.FamilyResponseIsWhole` | windows/3rdparty/mdns/mdns.h:1426-1473 | Every name is whole in every response whose names have distinct labels and one common last label. |
| `DnsAnswerBuilder.AddRecordHeader` | windows/3rdparty/mdns/mdns.h:1211-1226 | Name, type, class, time to live and a zero length, or no room. |
| `DnsAnswerBuilder.AddRecord` | windows/3rdparty/mdns/mdns.h:1228-1284 | Header, data and the length patched in afterwards, for every kind of record. |
| `DnsAnswerBuilder.AddTxtRecord` | windows/3rdparty/mdns/mdns.h:1298-1346 | One record for all TXT records of a list, under the name of the first. |
| `DnsAnswerBuilder.AddSection` | windows/3rdparty/mdns/mdns.h:1451-1467 | The loop over a section and then its TXT record, stopping when there is no room. |
| `DnsAnswerBuilder.GetRecordCount` | windows/3rdparty/mdns/mdns.h:1348-1360 | Plain records plus one if there is any TXT record. |
| `DnsAnswerBuilder.AnswerMulticast` | windows/3rdparty/mdns/mdns.h:1426-1473 | The bytes handed to the socket, or none, for any buffer and any lists. |
| `DnsRoom.ResponseFits` | windows/3rdparty/mdns/mdns.h:1426-1473 | A response is refused only for want of room: a buffer under 48 bytes gets none, one of 48 or more with room for everything written out gets one no longer than that. |
| `DnsRoom.UpdateMeans` | windows/3rdparty/mdns/mdns.h:1286-1297 | The class of a record is its own or the default, cut to IN and cache-flush, which pointers never carry; the time to live is its own unless it has none or the default is zero. |
| `DnsRoom.TypeNumbers` | windows/3rdparty/mdns/mdns.h:52-67 | The type numbers on the wire. |
| `Discovery.MdnsBrowser.Reconcile` | windows/src/discovery/mdnsdiscovery.cpp:201-277 | One cycle: the new known devices and miss counters; the callbacks so far still tell exactly what is known, and each of them told something new: a device that is new or has moved, or a known one that is gone. |
| `Discovery.MdnsBrowser.SeeDevice` | windows/src/discovery/mdnsdiscovery.cpp:207-256 | One sighting: ports from TXT, overridden by SRV; callback only when new or changed; the counter is dropped. |
| `Discovery.MdnsBrowser.CountMisses` | windows/src/discovery/mdnsdiscovery.cpp:258-276 | Every known device not seen is counted once more, and removed with a callback at the third miss. |
| `Discovery.MdnsBrowser.Start` | windows/src/discovery/mdnsdiscovery.cpp:125-129 | Running afterwards if it was running or a socket opens; a second start changes nothing. |
| `Discovery.MdnsBrowser.Stop` | windows/src/discovery/mdnsdiscovery.cpp:131-143 | A browser that is not running is left alone; otherwise the worker ends its cycle, every known device is reported removed, everything is forgotten, and replay still agrees. |
| `Discovery.EveryCycleAgrees` | windows/src/discovery/mdnsdiscovery.cpp:201-277 | The counters are the ages of the last sightings: invariant of any number of cycles. |
| `Discovery.KnownIffSeenInWindow` | windows/src/discovery/mdnsdiscovery.cpp:201-277 | After any cycles a name is known if and only if one of the last three saw it with a host, with the host and ports of the latest sighting; counters exist only for known names and are 1 or 2. |
| `Discovery.DeviceSays` | windows/src/discovery/mdnsdiscovery.cpp:214-232 | What a sighting says of a device: its host; the SRV port, or the number in the TXT entry ctl, or 6969; the number in the TXT entry vid, or 8554. |
| `Discovery.StoiReads` | windows/src/discovery/mdnsdiscovery.cpp:220-229 | A decimal number followed by anything but a digit is read as itself if it fits 32 bits, and refused otherwise. |
| `Discovery.StoiRefuses` | windows/src/discovery/mdnsdiscovery.cpp:220-229 | What starts with no digit, sign or blank is no number. |
| `Avcc.SplitAvcc` | ios/VCamdroidiOS/Sources/VCamdroidiOS/Encoding/NALUnitExtractor.swift:113-141 | The units of a sample for any length-field width; an incomplete last unit is left out. |
| `Avcc.SplitIsMaximal` | ios/VCamdroidiOS/Sources/VCamdroidiOS/Encoding/NALUnitExtractor.swift:125-140 | The units, prefixed again, are a prefix of the sample, and the rest holds no whole unit. |
| `Avcc.SplitJoin` | ios/VCamdroidiOS/Sources/VCamdroidiOS/Encoding/NALUnitExtractor.swift:125-140 | Splitting any joined list gives the list back, whatever incomplete unit follows. |
| `Avcc.FrameNal` | ios/VCamdroidiOS/Sources/VCamdroidiOS/Networking/VideoStreamHeader.swift:41-46 | A unit behind its 32-bit big-endian length. |
| `Avcc.FramesReproduceSample` | ios/VCamdroidiOS/Sources/VCamdroidiOS/Networking/VideoStreamHeader.swift:41-46 | At width 4, framing the units of a sample reproduces its whole-unit prefix byte for byte. |
| `VideoServer.EncodeHeader` | ios/VCamdroidiOS/Sources/VCamdroidiOS/Networking/VideoStreamHeader.swift:27-36 | The eleven header bytes. |
| `VideoServer.VideoStreamServer.HandleIncoming` | ios/VCamdroidiOS/Sources/VCamdroidiOS/Networking/VideoStreamServer.swift:144-171 | A second connection is turned away; a first one becomes active with no header sent. |
| `VideoServer.VideoStreamServer.TearDown` | ios/VCamdroidiOS/Sources/VCamdroidiOS/Networking/VideoStreamServer.swift:173-181 | Whichever connection ended, the active one is dropped. |
| `VideoServer.VideoStreamServer.StopListening` | ios/VCamdroidiOS/Sources/VCamdroidiOS/Networking/VideoStreamServer.swift:87-94 | The listener and the active connection are gone; outstanding bytes are still accounted. |
| `VideoServer.VideoStreamServer.SendCompleted` | ios/VCamdroidiOS/Sources/VCamdroidiOS/Networking/VideoStreamServer.swift:132-139 | A completion subtracts exactly the size of its own payload. |
| `VideoServer.VideoStreamServer.Send` | ios/VCamdroidiOS/Sources/VCamdroidiOS/Networking/VideoStreamServer.swift:103-140 | The whole state after a send, with any completions striking between the look at the outstanding bytes and the write. |
| `VideoServerRuns.SendIsARun` | ios/VCamdroidiOS/Sources/VCamdroidiOS/Networking/VideoStreamServer.swift:103-140 | A send of the class is a run of the two-step state machine with completions in between. |
| `VideoServerRuns.OutstandingBytesAreExactAndBounded` | ios/VCamdroidiOS/Sources/VCamdroidiOS/Networking/VideoStreamServer.swift:110-139 | In every reachable state the pending count is the sum of the payloads in flight, and the droppable part exceeds the mark by at most one largest payload. |
| `VideoServerRuns.WriteIsSoundIffFlagIsRight` | ios/VCamdroidiOS/Sources/VCamdroidiOS/Networking/VideoStreamServer.swift:119-125 | A write keeps its connection well-formed if and only if headerSent tells the truth about that connection. |
| `VideoServerRuns.StepIsSoundIff` | ios/VCamdroidiOS/Sources/VCamdroidiOS/Networking/VideoStreamServer.swift:103-181 | From a sound state every event leads to a sound state, except a write that finds headerSent wrong about its connection. |
| `VideoServerRuns.StreamsAreSoundIffFlagsAreRight` | ios/VCamdroidiOS/Sources/VCamdroidiOS/Networking/VideoStreamServer.swift:103-181 | Over every run: all connections are well-formed after every event if and only if every write finds headerSent right about the connection it writes to. |
| `VideoServerRuns.EveryStreamIsWellFormed` | ios/VCamdroidiOS/Sources/VCamdroidiOS/Networking/VideoStreamServer.swift:103-181 | In exactly those runs every connection carries nothing, or one header and then the kept units in order; only droppable units are missing. |
| `VideoServerRuns.SteadyRunsAreSound` | ios/VCamdroidiOS/Sources/VCamdroidiOS/Networking/VideoStreamServer.swift:103-181 | The sufficient case: no connection is replaced or reset inside a send. |
| `VideoServerRuns.ResetDuringSendLosesHeader` | ios/VCamdroidiOS/Sources/VCamdroidiOS/Networking/VideoStreamServer.swift:103-181 | A run in which a write finds the flag wrong: a connection replaced in the middle of a send starts without a header. |
| `VideoBackpressure.RefusedIff` | ios/VCamdroidiOS/Sources/VCamdroidiOS/Networking/VideoStreamServer.swift:103-118 | In every reachable state with an active connection and no send under way: a NAL is refused if and only if it may be dropped and more than 4194304 bytes are outstanding; one that is taken is on its way to that connection, unchanged. |
| `VideoBackpressure.OffersAreWhatWasAsked` | ios/VCamdroidiOS/Sources/VCamdroidiOS/Networking/VideoStreamServer.swift:103-140 | On every run: what is noted for a connection is what the caller offered it, in order and unchanged. |
| `VideoBackpressure.NothingIsDroppedIff` | ios/VCamdroidiOS/Sources/VCamdroidiOS/Networking/VideoStreamServer.swift:103-140 | On every run: no NAL of any connection is missing if and only if at most 4194304 bytes were outstanding whenever one that may be dropped was offered. |
| `VideoBackpressure.ProcessedPayloadsMakeRoom` | ios/VCamdroidiOS/Sources/VCamdroidiOS/Networking/VideoStreamServer.swift:132-139 | From every reachable state: once every payload in flight is processed nothing is outstanding and the next NAL is taken. |
| `VideoBackpressure.SecondConnectionGetsNothing` | ios/VCamdroidiOS/Sources/VCamdroidiOS/Networking/VideoStreamServer.swift:144-171 | On every run: a connection that came while another was active is never sent a byte. |
| `VideoBackpressure.EveryEndMakesRoom` | ios/VCamdroidiOS/Sources/VCamdroidiOS/Networking/VideoStreamServer.swift:87-181 | The end of a connection or a stop makes room for the next one, which starts without a header; what is outstanding stays accounted. |
| `VideoBackpressure.NewConnectionGetsHeader` | ios/VCamdroidiOS/Sources/VCamdroidiOS/Networking/VideoStreamServer.swift:103-171 | Whatever happened before, the first NAL of a new connection goes out behind its header. |
| `VideoBackpressure.StateFollows` | ios/VCamdroidiOS/Sources/VCamdroidiOS/Networking/VideoStreamServer.swift:64-94 | The state shown after each event. |
| `VideoReceiver.Receiver.ReadExact` | windows/src/streaming/rawtcpreceiver.cpp:196-207 | Over any fragments: success if and only if all bytes came; what was taken plus what is left is what there was. |
| `VideoReceiver.Receiver.ReadHeader` | windows/src/streaming/rawtcpreceiver.cpp:209-231 | Accepts exactly the well-formed headers, consuming eleven bytes. |
| `VideoReceiver.Receiver.ReadNalUnit` | windows/src/streaming/rawtcpreceiver.cpp:233-251 | Takes exactly one whole unit of acceptable size, behind a start code, or refuses. |
| `VideoReceiver.Receiver.Worker` | windows/src/streaming/rawtcpreceiver.cpp:150-184 | Emits every unit of the stream in order up to the first refused one; a prefix of them if stopped. |
| `VideoPath.GoodRunIsAllIff` | windows/src/streaming/rawtcpreceiver.cpp:238-242 | Nothing is cut off exactly when every unit has 1 to 16777216 bytes. |
| `VideoPath.FramesTakenApart` | windows/src/streaming/rawtcpreceiver.cpp:233-251 | Framed units are taken apart again, up to the first the receiver refuses. |
| `VideoPath.PrefixYieldsPrefix` | windows/src/streaming/rawtcpreceiver.cpp:150-184 | The first bytes of a stream yield the first units of it. |
| `VideoPath.HeaderReadBack` | windows/src/streaming/rawtcpreceiver.cpp:209-231 | What the phone encodes as a header the PC reads as the same codec, size and rate. |
| `VideoPath.HeaderByByte` | ios/VCamdroidiOS/Sources/VCamdroidiOS/Networking/VideoStreamHeader.swift:27-36 | The eleven header bytes, one by one. |
| `VideoPath.HeaderAcceptedIff` | windows/src/streaming/rawtcpreceiver.cpp:209-231 | The receiver accepts a header, and reads it so, if and only if its eleven bytes say so: magic number, version 1, any codec byte, size and rate. |
| `VideoPath.WireTakenApart` | windows/src/streaming/rawtcpreceiver.cpp:101-184 | What any delivered part of a connection is worth to the receiver. |
| `VideoPath.Transmit` | windows/src/streaming/rawtcpreceiver.cpp:80-251 | End to end: any server run with right flags, any connection, any fragmentation and any stop; once the header has arrived the receiver accepts it and emits the units delivered, in order, up to the first refused size. If there was always room, nothing was cut short and all sizes are acceptable, the decoder is handed exactly the NALs the caller offered, each behind its start code. |
| `VideoPath.VitalNalsAreKept` | ios/VCamdroidiOS/Sources/VCamdroidiOS/Networking/VideoStreamServer.swift:114-117 | In every run, no parameter set or keyframe offered to a connection is missing from what was kept. |
| `ScalerDims.PictureIsBest` | windows/src/video/directshowscaler.cpp:21-41 | Of the dimensions the camera and the preview are given: the picture lies in the box, one side is full, the other within one pixel of the exact aspect, and no undistorted box that fits is larger. |
| `ScalerDims.ContainerOf` | windows/src/video/directshowscaler.cpp:24-41 | The camera image is always its own container, with bars; the preview is the picture itself, no larger than its box; the plain scaler keeps the source size. |
| `ScalerDims.ResolutionDoesNotMatter` | windows/src/video/directshowscaler.cpp:21-36 | A source of the same aspect and another resolution is shown in the same place. |
| `ScalerDims.PictureIsPlaced` | windows/src/video/directshowscaler.cpp:38-41 | For all three scalers the picture lies in its container, centred to within a pixel, and without padding is the container. |
| `ScalerDims.PreviewIsPictureWithoutBars` | windows/src/video/guipreviewscaler.cpp:12-42 | The preview shows the very picture the camera shows, without its bars. |
| `FrameScalers.SliceIsRectangle` | windows/src/video/framescaler.cpp:25-42 | The start and stride handed to the foreign scaler address exactly the picture rectangle, each cell at its place. |
| `FrameScalers.PictureIsInsideBuffer` | windows/src/video/framescaler.cpp:31-42 | Every byte of the rectangle lies in the image. |
| `FrameScalers.VisibleFitsBuffer` | windows/src/video/framescaler.cpp:82-87 | The image and the padding fit the size asked for, though rows are aligned in one and not in the other. |
| `FrameScalers.FrameScaler.PrepareContext` | windows/src/video/framescaler.cpp:53-109 | Reuses the context exactly for an unchanged source; otherwise context, dimensions, buffer and last sizes agree again, or there is no context. |
| `FrameScalers.FrameScaler.Process` | windows/src/video/framescaler.cpp:16-51 | When a frame succeeds, its size and image: the picture where it was painted, black in the bars; the cache stays sound either way. |
| `FrameScalers.FrameScaler.Cleanup` | windows/src/video/framescaler.cpp:111-119 | No context, an empty buffer, and a sound cache. |
| `FrameScalers.ImageDependsOnFrameOnly` | windows/src/video/framescaler.cpp:89-102 | The image does not remember earlier frames or sizes: a fully painted frame alone decides every visible byte. |
| `FrameScalers.PixelsStandInPlace` | windows/src/video/framescaler.cpp:25-42 | Byte k of a row of the picture stands in the image behind the rows above it and the pixels to its left, in whole rows of the container. |
| `FrameScalers.BarsAreDark` | windows/src/video/framescaler.cpp:89-102 | With bars, a byte that is not black is one of the picture. |
| `Control.BuildPacket` | windows/src/rtsp/manager.cpp:201-349 | The packets pushed together piece by piece are the bytes of their command. |
| `Control.DecodeOne` | ios/VCamdroidiOS/Sources/VCamdroidiOS/Networking/ControlPacketDecoder.swift:13-161 | A step on a non-empty buffer consumes at least one byte and no more than there are; only an empty buffer gives nothing. |
| `Control.AskedIffInRange` | windows/src/rtsp/manager.cpp:125-359 | The command that arrives is what the caller asked for if and only if every argument fits its field. |
| `Control.CallReadsBack` | ios/VCamdroidiOS/Sources/VCamdroidiOS/Networking/ControlPacketDecoder.swift:13-161 | A packet at the head of any buffer is read as the command it carries, and nothing behind it is touched. |
| `ControlStream.DrainAll` | ios/VCamdroidiOS/Sources/VCamdroidiOS/Networking/ControlPacketDecoder.swift:165-174 | The loop decodes until the buffer is empty or a packet is bad, and then the whole batch is lost. |
| `ControlStream.PacketsReadBack` | ios/VCamdroidiOS/Sources/VCamdroidiOS/Networking/ControlPacketDecoder.swift:165-174 | Decoding distributes over every packet boundary, whatever follows. |
| `ControlStream.CommandsReadBack` | ios/VCamdroidiOS/Sources/VCamdroidiOS/Networking/ControlPacketDecoder.swift:165-174 | Any list of calls, encoded and concatenated, decodes to that list with nothing left over. |
| `ControlStream.NothingIsKept` | ios/VCamdroidiOS/Sources/VCamdroidiOS/Networking/ControlPacketDecoder.swift:165-174 | A drain that succeeds leaves no bytes for later. |
| `ControlStream.SizeOfPacket` | ios/VCamdroidiOS/Sources/VCamdroidiOS/Networking/ControlPacketDecoder.swift:13-161 | On any bytes the size of a packet can be told from the command it was read as. |
| `ControlStream.CutPacketFails` | ios/VCamdroidiOS/Sources/VCamdroidiOS/Networking/ControlPacketDecoder.swift:13-161 | On any bytes a packet cut short is an error, never a wait for more. |
| `ControlStream.PartialPacketLosesBatch` | ios/VCamdroidiOS/Sources/VCamdroidiOS/Networking/ControlChannel.swift:143-160 | A buffer that ends inside a packet loses every command in it, the whole ones too. |
| `ControlStream.OnePacketIffNameFits` | windows/src/rtsp/manager.cpp:222-249 | A filter packet is read as one packet if and only if its name is at most 255 bytes of UTF-8. |
| `ControlStream.ControlChannel.DrainInboundBuffer` | ios/VCamdroidiOS/Sources/VCamdroidiOS/Networking/ControlChannel.swift:143-160 | Delivers what decodes and always ends with an empty buffer. |
| `ControlStream.ControlChannel.ReceiveLoop` | ios/VCamdroidiOS/Sources/VCamdroidiOS/Networking/ControlChannel.swift:119-141 | However the bytes arrive, they are drained chunk by chunk and nothing carries over. |
| `ControlStream.DeliveredIffAligned` | ios/VCamdroidiOS/Sources/VCamdroidiOS/Networking/ControlChannel.swift:119-160 | Cut a run of packets into chunks anywhere: the phone ends up with exactly the commands sent if and only if no cut falls inside a packet. |
| `ActivationPath.ActivationArrivesIff` | ios/VCamdroidiOS/Sources/VCamdroidiOS/Networking/ControlPacketDecoder.swift:19-21 | The phone decodes an ACTIVATION packet as one command that takes all of it and says what the options say if and only if every integer, list and string fits. |
| `ActivationPath.CommandsThenActivation` | ios/VCamdroidiOS/Sources/VCamdroidiOS/Networking/ControlPacketDecoder.swift:165-174 | Any commands followed by an activation are carried out, the activation last. |
| `ActivationPath.CutActivationFails` | ios/VCamdroidiOS/Sources/VCamdroidiOS/Networking/ControlPacketDecoder.swift:19-21 | Cut anywhere an activation is refused as truncated, and nothing is carried out. |
| `ActivationPath.SelectAndActivate` | windows/src/rtsp/manager.cpp:101-123 | From the choice of a device to its phone: the packet leaves for its connection, and the phone carries out exactly one command, the activation with the options chosen. |
| `ActivationPath.UnknownIff` | ios/VCamdroidiOS/Sources/VCamdroidiOS/Networking/ControlPacketDecoder.swift:157-159 | A first byte outside 0x01-0x10 without 0x04 and 0x20-0x2B, and no other, makes the whole buffer one unknown command that keeps the bytes behind it. |
| `ActivationPath.UnknownSwallowsTheRest` | ios/VCamdroidiOS/Sources/VCamdroidiOS/Networking/ControlPacketDecoder.swift:157-174 | Commands in front of an unknown one are carried out; whatever is behind it is swallowed. |
| `Activation.SerializeStreamOptions` | windows/src/net/serializer.cpp:133-166 | The placeholder byte and then the body, for any order in which the filter map is walked. |
| `Activation.DecodeActivation` | ios/VCamdroidiOS/Sources/VCamdroidiOS/Networking/ActivationDecoder.swift:14-60 | Reads field by field as the decoder does, with its two errors. |
| `Activation.ActivationReadsBack` | ios/VCamdroidiOS/Sources/VCamdroidiOS/Networking/ActivationDecoder.swift:14-60 | The configuration the phone arrives at for any options. |
| `Activation.ActivationReadsBackIff` | ios/VCamdroidiOS/Sources/VCamdroidiOS/Networking/ActivationDecoder.swift:14-60 | For any options: what the phone arrives at says the same if and only if every integer fits 32 unsigned bits, there are fewer than 65536 filters, and every string is UTF-8 of fewer than 65536 bytes. |
| `Activation.MalformedIff` | ios/VCamdroidiOS/Sources/VCamdroidiOS/Networking/ActivationDecoder.swift:14-60 | Where every length fits, the phone refuses an activation if and only if a string is not UTF-8, and by that error. |
| `Activation.CutIsTruncated` | ios/VCamdroidiOS/Sources/VCamdroidiOS/Networking/ActivationDecoder.swift:14-60 | On any bytes: a body that decodes, cut anywhere before its end, is refused as truncated. |
| `Activation.EveryPrefixIsTruncated` | ios/VCamdroidiOS/Sources/VCamdroidiOS/Networking/ActivationDecoder.swift:14-60 | Every proper prefix of an encoding is refused as truncated. |
| `ByteIO.ByteWriter.AppendUInt32BE` | ios/VCamdroidiOS/Sources/VCamdroidiOS/Networking/ByteWriter.swift:35-40 | Appends exactly the big-endian bytes. |
| `ByteIO.ByteWriter.AppendLengthPrefixedStringBE` | ios/VCamdroidiOS/Sources/VCamdroidiOS/Networking/ByteWriter.swift:68-73 | Appends length and bytes; the length must fit. |
| `ByteIO.ByteReader.ReadBytes` | ios/VCamdroidiOS/Sources/VCamdroidiOS/Networking/ByteReader.swift:92-96 | The next bytes, or an error that leaves the cursor where it is. |
| `ByteIO.ByteReader.ReadUInt32BE` | ios/VCamdroidiOS/Sources/VCamdroidiOS/Networking/ByteReader.swift:48-55 | The big-endian word at the cursor, or an error that leaves the cursor. |
| `ByteIO.ByteReader.ReadUInt32LE` | ios/VCamdroidiOS/Sources/VCamdroidiOS/Networking/ByteReader.swift:77-84 | The little-endian word at the cursor, or an error that leaves the cursor. |
| `ByteIO.ByteReader.ReadLengthPrefixedStringBE` | ios/VCamdroidiOS/Sources/VCamdroidiOS/Networking/ByteReader.swift:99-106 | A string behind a 16-bit length, valid as UTF-8, or the error of the step that failed, with the cursor behind the steps that did not. |
| `ByteIO.ByteReader.ReadShortPrefixedString` | ios/VCamdroidiOS/Sources/VCamdroidiOS/Networking/ByteReader.swift:109-116 | A string behind an 8-bit length, valid as UTF-8, or the error of the step that failed, with the cursor behind the steps that did not. |
| `Bytes.ReadU32BE` | ios/VCamdroidiOS/Sources/VCamdroidiOS/Networking/ByteReader.swift:48-55 | The word written big-endian at a position is the word read there. |
| `Bytes.ReadU32LE` | ios/VCamdroidiOS/Sources/VCamdroidiOS/Networking/ByteReader.swift:77-84 | The word written little-endian at a position is the word read there. |
| `Bytes.ByteWeights` | ios/VCamdroidiOS/Sources/VCamdroidiOS/Networking/ByteWriter.swift:30-58 | Which byte weighs what: big-endian with the heaviest in front, little-endian with the lightest. |
| `Descriptors.Encode` | ios/VCamdroidiOS/Sources/VCamdroidiOS/Networking/DeviceDescriptor.swift:66-90 | The iOS encoder gives the wire bytes of the descriptor. |
| `Descriptors.RequiredSize` | android/app/src/main/java/com/darusc/vcamdroid/networking/DeviceDescriptor.kt:23-37 | The size computed beforehand is the size of those same bytes. |
| `Descriptors.Serialize` | android/app/src/main/java/com/darusc/vcamdroid/networking/DeviceDescriptor.kt:39-71 | The Android encoder gives the same wire bytes, fills its buffer exactly and never overflows it. |
| `Descriptors.DeserializeDeviceDescriptor` | windows/src/net/serializer.cpp:40-131 | The parser, wherever it stays inside its bytes, with type, transport and protocol told from the URL. |
| `Descriptors.GroupedInOrder` | windows/src/net/serializer.cpp:112-128 | Filters are grouped by category, each group in original order, and no category is invented. |
| `Descriptors.DescriptorTaken` | windows/src/net/serializer.cpp:40-131 | The PC recovers name, URL, filters and the resolutions cut to 16 bits. |
| `Descriptors.DescriptorReadsBackIff` | windows/src/net/serializer.cpp:40-131 | For any descriptor: it is recovered itself if and only if every length and every resolution fits 16 bits. |
| `Descriptors.DescriptorSays` | windows/src/net/serializer.cpp:40-131 | Field by field: name, URL, front list, back list, and every filter under its category and no other; vcmd:// in any case makes an iOS device on raw TCP, and 127.0.0.1 in the URL alone makes TCP. |
| `Descriptors.CutDescriptorOverruns` | windows/src/net/serializer.cpp:40-131 | Cut anywhere, the parse runs past the bytes it was given. |
| `Descriptors.HandshakeIsWholeIff` | windows/src/net/server.cpp:149-157 | The one read of 512 bytes holds a whole descriptor if and only if it is no longer than that. |
| `Descriptors.EncodeReport` | ios/VCamdroidiOS/Sources/VCamdroidiOS/Networking/ErrorReport.swift:21-27 | The bytes of an error report. |
| `Descriptors.DeserializeErrorReport` | windows/src/net/serializer.cpp:168-181 | The report in those bytes, wherever the parser stays inside them. |
| `Descriptors.ReportReadsBack` | windows/src/net/serializer.cpp:168-181 | Every report reads back; cut anywhere its parse runs past the bytes. |
| `Descriptors.ReportIsWholeIff` | windows/src/net/connection.cpp:16-24 | A report read into 255 bytes in one piece is whole if and only if it fits. |
| `SettingsFile.Settings.Load` | windows/src/settings.cpp:67-130 | What any text, or a missing file, makes of settings, device states and preserved lines. |
| `SettingsMeaning.GlobalPair` | windows/src/settings.cpp:102-119 | After any lines outside the device sections, a pair sets a global, whatever was set before. |
| `SettingsMeaning.DeviceHeader` | windows/src/settings.cpp:85-93 | After any lines, a device header opens its section on the options read so far or on the defaults. |
| `SettingsMeaning.OtherHeader` | windows/src/settings.cpp:95-99 | Any other header closes it. |
| `SettingsMeaning.DevicePair` | windows/src/settings.cpp:102-114 | Inside a section a pair changes the device whose section it is and nothing else. |
| `SettingsMeaning.OtherLine` | windows/src/settings.cpp:80-104 | A line that is no header and holds no pair is passed over. |
| `SettingsMeaning.NumberKeys` | windows/src/settings.cpp:201-228 | The number each key sets. |
| `SettingsMeaning.SwitchKeys` | windows/src/settings.cpp:207-227 | The switch each key sets, on for exactly 1. |
| `SettingsMeaning.ModesSet` | windows/src/settings.cpp:239-250 | The modes, manual for exactly 1. |
| `SettingsMeaning.OtherKeys` | windows/src/settings.cpp:211-235 | The size, the filters by name, and the effect. |
| `SettingsMeaning.SavedIff` | windows/src/settings.cpp:49-57 | Device states are saved and handed out if and only if the file sets SAVE_DEVICE_STATES to 1. |
| `SettingsFile.Settings.TakeLine` | windows/src/settings.cpp:82-119 | One line: blank, section header, pair for the current device, or global pair. |
| `SettingsFile.Settings.CachePreservedLines` | windows/src/settings.cpp:254-284 | The lines kept verbatim for files whose device states are not managed. |
| `SettingsFile.Settings.Save` | windows/src/settings.cpp:132-199 | The printed file: globals in key order, a blank line, then device sections or the preserved lines. |
| `SettingsPreserved.SessionHandsBackStates` | windows/src/settings.cpp:49-199 | Load, GetDeviceStates, UpdateDeviceStates, Save, Load: with device states saved the next start hands back the states left if and only if their names and effects can be written down; not saved, nothing is handed out and nothing left behind reaches the file. |
| `Text.AtoiOfItoa` | windows/src/settings.cpp:118 | A printed integer is read back as itself. |
| `Text.AtoiReads` | windows/src/settings.cpp:118 | A number with anything but a digit behind it is read as itself. |
| `Text.AtoiOtherwise` | windows/src/settings.cpp:118 | Blanks in front do not matter, and what is no number is zero. |
| `Text.LinesOfUnlines` | windows/src/settings.cpp:80 | Lines without newlines, printed, are read back as themselves. |
| `Text.LastLineCounts` | windows/src/settings.cpp:80 | A last line without a newline is a line too, and an empty one is none. |
| `Text.SortedIsSorted` | windows/src/settings.cpp:137 | The order in which keys are printed is increasing. |
| `SettingsRoundTrip.KeyOfField` | windows/src/settings.cpp:201-252 | The key each field is printed under is the key it is parsed by. |
| `SettingsRoundTrip.EntriesFed` | windows/src/settings.cpp:150-170 | The entries of a section lead from the defaults to the options they were printed from. |
| `SettingsRoundTrip.SaveThenLoadIff` | windows/src/settings.cpp:67-252 | With device states saved, Load after Save restores every global and every persisted field of every device if and only if no name or effect holds a newline and no key holds an equals sign. |
| `SettingsPreserved.RelationHolds` | windows/src/settings.cpp:254-284 | The preserved lines alone give the same devices as the whole file and touch no global setting. |
| `SettingsPreserved.NothingKeptIff` | windows/src/settings.cpp:254-284 | Nothing is preserved exactly when no line opens a section. |
| `SettingsPreserved.OffIsAFixpointIff` | windows/src/settings.cpp:67-284 | With device states not saved, for every file: load, save and load again brings back the same globals, devices and preserved lines if and only if the loaded store is quiet, that is, no global prints as the start of a section and the preserved lines give its devices and leave its globals alone. |
| `SettingsPreserved.AgreedFilesAreFixpoints` | windows/src/settings.cpp:67-284 | The case visible in the file: every line on which the two section tests agree. |
| `SettingsPreserved.WrittenFilesAgreeIff` | windows/src/settings.cpp:132-199 | In a file the program writes with device states they agree on every line if and only if no global name begins with a bracket. |
| `SettingsPreserved.TornFileChanges` | windows/src/settings.cpp:265-281 | A file on which they disagree, and what becomes of it. |
| `DeviceLists.Manager.FindDescriptor` | windows/src/rtsp/manager.cpp:44-45 | The index of the first descriptor with this name and URL. |
| `DeviceLists.Manager.RemoveDescriptor` | windows/src/rtsp/manager.cpp:42-57 | What std::remove and one erase leave, and the streaming index adjusted to the first match. |
| `DeviceLists.Manager.Connect2Stream` | windows/src/rtsp/manager.cpp:101-123 | The streaming index is the chosen descriptor, its connection is sent the ACTIVATION packet of the options, and the right kind of receiver is started with the override or the device URL. |
| `DeviceLists.ReceiverSays` | windows/src/rtsp/manager.cpp:87-123 | The receiver is of the kind the URL of the device says, pointed at the override if there is one, for the size chosen. |
| `DeviceLists.Manager.StopAll` | windows/src/rtsp/manager.cpp:59-67 | No receiver and no streaming index. |
| `DeviceLists.Server.Accepted` | windows/src/net/server.cpp:165-167 | Both lists grow at the end. |
| `DeviceLists.Server.OnConnectionDisconnected` | windows/src/net/server.cpp:180-186 | The connection goes by identity, its descriptor by name and URL. |
| `DeviceLists.Manager.SendToActiveDevice` | windows/src/rtsp/manager.cpp:79-85 | The bytes go to the connection at the streaming index, or nowhere if either list is too short for it. |
| `DeviceLists.Manager.SendCommand` | windows/src/rtsp/manager.cpp:125-359 | A command goes out as its packet, to that connection and no other. |
| `DeviceLists.RemovalIsRightIff` | windows/src/rtsp/manager.cpp:42-57 | The manager loses exactly the departing device if and only if no match stands in front of it and all matches behind it close the list. |
| `DeviceLists.TwinsAreConfused` | windows/src/rtsp/manager.cpp:42-57 | Two devices with one name and URL: the wrong one is dropped. |
| `DeviceLists.StepKeepsParallel` | windows/src/rtsp/manager.cpp:37-123 | Every connect, disconnect, selection and stop keeps the lists parallel and the index on the chosen device. |
| `DeviceLists.WhoIsCommanded` | windows/src/rtsp/manager.cpp:37-123 | What each event does to who is commanded: a selection decides it, a stop ends it, an arrival leaves it, and so does a departure except of the device commanded. |
| `DeviceLists.DisconnectIsPossible` | windows/src/net/server.cpp:180-186 | In parallel lists a departing device always has a descriptor to erase, so the erasure is defined. |
| `DeviceLists.CommandsReachTheChosenDevice` | windows/src/net/server.cpp:66-72 | In every run of distinct devices each erasure is defined, the lists are parallel at the end, and commands reach the device selected, if it is still there, and nobody else. |
| `AdaptiveBitrate.AdaptiveBitrateController.ConsumeSnapshot` | ios/VCamdroidiOS/Sources/VCamdroidiOS/Streaming/AdaptiveBitrateController.swift:47-74 | The whole state after a snapshot; the encoder is told exactly when an adjustment is made. |
| `AdaptiveBitrate.AdaptiveBitrateController.UpdatePolicy` | ios/VCamdroidiOS/Sources/VCamdroidiOS/Streaming/AdaptiveBitrateController.swift:32-43 | The policy and its starting bitrate, told to the encoder. |
| `AdaptiveBitrate.SnapshotMeans` | ios/VCamdroidiOS/Sources/VCamdroidiOS/Streaming/AdaptiveBitrateController.swift:47-74 | Two seconds after the last adjustment a rate below 85 percent of the target takes the bitrate to eight tenths or the minimum, one of 98 percent or more to eleven tenths or the maximum; everything else leaves it. |
| `AdaptiveBitrate.PolicyStartsHigh` | ios/VCamdroidiOS/Sources/VCamdroidiOS/Streaming/AdaptiveBitrateController.swift:32-43 | A policy starts at its fixed bitrate or its maximum, and the cooldown runs on. |
| `AdaptiveBitrate.BitrateStaysInBounds` | ios/VCamdroidiOS/Sources/VCamdroidiOS/Streaming/AdaptiveBitrateController.swift:47-74 | On every run of snapshots and policies the bitrate stays within the policy. |
| `AdaptiveBitrate.AdjustmentsAreSpaced` | ios/VCamdroidiOS/Sources/VCamdroidiOS/Streaming/AdaptiveBitrateController.swift:51-53 | Adjustments are always more than two seconds apart, across changes of policy too. |
| `AdaptiveBitrate.LowRatesShrinkGeometrically` | ios/VCamdroidiOS/Sources/VCamdroidiOS/Streaming/AdaptiveBitrateController.swift:61-65 | Under sustained low rates n snapshots leave at most 0.8 to the n of the bitrate, or the minimum. |
| `AdaptiveBitrate.LowRatesReachMinimum` | ios/VCamdroidiOS/Sources/VCamdroidiOS/Streaming/AdaptiveBitrateController.swift:61-65 | The minimum is reached as soon as that bound falls below one above it. |
| `AdaptiveBitrate.LowRatesReachMinimumWithin` | ios/VCamdroidiOS/Sources/VCamdroidiOS/Streaming/AdaptiveBitrateController.swift:61-65 | And in any case after as many snapshots as there are kilobits above it. |
| `AdaptiveBitrate.HighRatesReachMaximumIff` | ios/VCamdroidiOS/Sources/VCamdroidiOS/Streaming/AdaptiveBitrateController.swift:66-71 | Sustained high rates reach the maximum if and only if the bitrate is there already or at least 10 kbps; below that it never moves. |
| `RecentHosts.RecentHostsStore.Remember` | ios/VCamdroidiOS/Sources/VCamdroidiOS/Utilities/RecentHostsStore.swift:13-22 | The stored list after one host. |
| `RecentHosts.RecentHostsStore.Load` | ios/VCamdroidiOS/Sources/VCamdroidiOS/Utilities/RecentHostsStore.swift:8-11 | The stored hosts without empty ones. |
| `RecentHosts.RecentHostsStore.RememberAll` | ios/VCamdroidiOS/Sources/VCamdroidiOS/Utilities/RecentHostsStore.swift:8-22 | From an empty store, any history leaves the first eight of its distinct hosts, latest first. |
| `RecentHosts.RememberCommutes` | ios/VCamdroidiOS/Sources/VCamdroidiOS/Utilities/RecentHostsStore.swift:16-20 | Remembering on the shortened list is remembering on the full one, then shortening. |
| `RecentHosts.ListIsRecentHistory` | ios/VCamdroidiOS/Sources/VCamdroidiOS/Utilities/RecentHostsStore.swift:8-22 | The list refines the full history: the first eight of the distinct non-blank trimmed hosts, latest first. |
| `RecentHosts.ListIsByRecency` | ios/VCamdroidiOS/Sources/VCamdroidiOS/Utilities/RecentHostsStore.swift:13-22 | At most eight hosts, none blank or twice, and the one remembered later stands in front. |
| `RecentHosts.NothingIsForgottenEarly` | ios/VCamdroidiOS/Sources/VCamdroidiOS/Utilities/RecentHostsStore.swift:13-22 | While it holds fewer than eight, it holds every host ever remembered. |
| `RecentHosts.TrimMeans` | ios/VCamdroidiOS/Sources/VCamdroidiOS/Utilities/RecentHostsStore.swift:14 | Trimming takes blanks off both ends, all of them and nothing else. |

## Left out

- Sockets, multicast, select, timers, threads, adb and usbmuxd: they appear only as bytes and as steps that may
  happen at any time. Handlers of the PC's server run one at a time.
- FFmpeg, swscale, VideoToolbox, AVFoundation and the OpenGL filters: foreign code. The scaler writes what it
  likes inside the picture, and a context may be refused at any time.
- wxWidgets, SwiftUI and Android user interfaces, and most of windows/src/application.cpp.
- `StreamOptions.deserialize` on Android: it reads fields that Windows does not write, so no agreement holds.
- `mdns_query_answer_unicast`, `mdns_discovery_recv`, `mdns_socket_listen` and `mdns_goodbye_multicast`: they
  repeat the same machinery.
- The accumulation in `QueryCallback`, which becomes the browser's input; a callback's decision to stop is a function
  of the entry it is handed.
- Rounding: the floats of the protocols are bit patterns, the ratios of the scalers and the factors of the
  bitrate controller exact rationals.
- UTF-8: names are bytes, and which of them are UTF-8 is a parameter.
- The width of `int` in `atoi` and in buffer sizes: numbers are taken not to overflow there.
- Text mode translation of line ends, and switching the saving of device states while running.
- DnsRoundTrip.NameReadsBackIff: assumes a buffer of at most 16384 bytes, because references cannot reach further; so do the lemmas built on it.
- DnsConversation.ResponseReadsBack: assumes an answer that is not TXT and a receiver that waits for no identifier, because AnnouncedAreReceivedIff and ResponseReadsBackIff say what happens otherwise.
- DnsMessages.ReceivedSlicesAreOrdered: for a callback that goes on, as the program's own does (windows/src/discovery/mdnsdiscovery.cpp:109); StoppedIsPrefix says what one that stops is handed in a section.
- The methods that parse A and AAAA records: a function only, since they copy bytes.
- VideoServer.VideoStreamServer.HandleIncoming: the reported state of listener and connection is kept in the value machine only where it decides something.
- VideoPath.Transmit: assumes a run with right flags, because StreamsAreSoundIffFlagsAreRight says that other runs break some stream.
- SettingsFile.Settings.Load: does not model the seven float fields of a device section, because they are parsed and printed by the C library with six digits and rounding.
- SettingsFile.Settings.TakeLine: leaves lines that set a float field without effect.
- SettingsFile.Settings.Save: does not print the float lines of a device section.
- DeviceLists.Manager.Connect2Stream: assumes a descriptor that was not moved from; only twins leave such ones behind.
- DeviceLists.CommandsReachTheChosenDevice: assumes that no two connected devices share name and URL, because TwinsAreConfused fails otherwise; RemovalIsRightIff gives the exact condition for one removal. A moved-from descriptor is taken to equal no device.
- Control.BuildPacket: an activation is built in Activation.SerializeStreamOptions; it swallows whatever follows it in a buffer, so it is not part of the lists of commands.
- Descriptors.Encode: the trap on numbers that do not fit is a precondition.
- AdaptiveBitrate.BitrateStaysInBounds: assumes 0 <= minimum <= maximum, which the program does not check.
