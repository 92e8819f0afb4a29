# MovilCam, MultiChat and PublisherSuite: a verified model

The project models the parts of the three programs whose correctness is an argument rather than a
glance, and proves what they are for.

- **The frame ring** (`RingLayout`, `RingProtocol`, `RingReaders`, `RingTheorems`, `RingTight`,
  `RingLifecycle`, `FrameRing`, `VirtualCamera`). One broker stores NV12 frames into three slots of shared memory,
  any number of camera processes copy them out without a lock. The protocol is a step relation: every
  shared load and store is a step, pictures are copied one byte a step, and a run is an arbitrary list of
  events. The broker's class keeps the pictures in one flat byte array, addressed with the layout of `create`, and is shown to
  make exactly the protocol's steps. The
  reader's class runs with the broker moving, as an arbitrary agenda says, before each of its loads.
  The end of the chain is what an application is handed by `FillBuffer`. The life of the named mapping (create,
  open, close, by any number of processes) is a second step relation.
- **Pictures** (`Planes`, `PixelMap`, `Decoder`): strided copies out of decoder buffers, NV12 to YUY2.
- **The chat hub** (`HubSpec`, `HubDelivery`, `HubProgram`): history, table of seen keys with rebuilds,
  lossy fan-out, against the log of all accepted messages.
- **The camera link** (`Bytes`, `AnnexB`, `AnnexBReader`, `WireFormat`, `WireProgram`, `WireLink`): NAL units from length
  prefixes to the byte stream of Annex B of ITU-T H.264, with an independent reader of that stream; the framed
  protocol from the phone's writer to the broker's receive loop, over every fragmentation and every cut.
- **The article converter** (`HtmlText`, `HtmlScanner`, `MdxRender`, `MdxNesting`, `MdxConvert`, `MdxPages`, `MdxProgram`):
  the renderer against a tokenizer after section 13.2.5 of the HTML Standard, and against the pages letter for letter.
- **The video publisher** (`Upload`, `Journal`): chunked uploads and the limit of jobs per day.

Code that changes things in place is a class or a method over arrays, proved against a function; the
functions are what the lemmas speak of. The invariants of the two step relations are contracts of their run
functions, so the theorems over all runs follow from them in a few lines; the work is in the lemmas that every
single step keeps them. `Options` holds the one shared datatype. Interference, fragmentation and failing system calls are parameters
that range over everything.

Three promises turned out to hold only under a condition, and the condition is proved exact:
`normalize` keeps the list of NAL units unless the first length prefix begins like a start code
(`AnnexBReader.NormalizeKeepsUnits`, which also names the lists of single bytes that look the same either way), `writePacket` lets packets through that the broker refuses, namely those
with flags beyond the two known bits (`WireFormat.FramesRoundTrip`; the phone itself only sends 0 and 1), and the hub takes messages of different platforms for
one when a slash in a platform allows it (`HubSpec.OneKey`). For each there is an input on which the
promise fails (`AnnexBReader.NormalizeLosesUnits`, `WireFormat.UnknownFlagRefused`, `HubSpec.SlashCollides`).

`dafny verify dfyconfig.toml` checks everything.

## Model

| member | source | states |
|---|---|---|
| `RingTheorems.NoTornFrame` | MovilCam/windows/native/virtualcam/virtualcam.cpp:66-88 | In every interleaving of one broker and any number of readers, at single-byte copy steps, a `copy_latest` that returned true with sequence p has filled the destination with exactly the p-th frame ever accepted by `publish` |
| `RingTheorems.NeverBackwards` | MovilCam/windows/native/virtualcam/virtualcam.cpp:81-84 | The sequences one reader returns from one mapping never decrease |
| `RingTheorems.BoundedStaleness` | MovilCam/windows/native/virtualcam/virtualcam.cpp:76-85 | When the second sequence check for p succeeds, `published` is p, p+1 or p+2; when it fails, `published` is at least p+2 |
| `RingTheorems.FailureNeedsSixFrames` | MovilCam/windows/native/virtualcam/virtualcam.cpp:68-87 | A call whose first load finds a frame, into a large enough buffer, fails only if at least six further frames were announced during it |
| `RingTight.SixFramesSuffice` | MovilCam/windows/native/virtualcam/virtualcam.cpp:68-87 | The bound of six is exact: from every reachable state with a call about to make its first load and a frame announced, wherever the broker stands, some run makes the call fail with exactly six more frames announced |
| `RingTight.TrapHasNoCall` | MovilCam/windows/native/virtualcam/virtualcam.cpp:68-87 | That run starts no other call, so it is one the bound speaks of |
| `RingTheorems.UndisturbedCallSucceeds` | MovilCam/windows/native/virtualcam/virtualcam.cpp:66-84 | A call that no broker step interrupts returns the newest announced frame at its first attempt, even while the broker stands in the middle of the next one |
| `RingReaders.SlotHolds` | MovilCam/windows/native/src/ring.cpp:45-57 | A slot with an even number carries that frame whole, and is reused only after two more frames were announced |
| `RingReaders.ReaderKept` | MovilCam/windows/native/virtualcam/virtualcam.cpp:66-88 | No broker step invalidates what a reader in the middle of an attempt relies on |
| `RingReaders.Run` | MovilCam/windows/native/virtualcam/virtualcam.cpp:66-88 | Every run from a good state ends in a good one, and nothing the broker has announced is ever taken back |
| `RingReaders.MoveInv` | MovilCam/windows/native/virtualcam/virtualcam.cpp:66-88 | Every step of every process keeps the invariant of the broker and of all readers |
| `RingProtocol.WriterStepInv` | MovilCam/windows/native/src/ring.cpp:42-63 | Every store of `publish` keeps the invariant of the three slots and of the counters, and only moves sequence numbers, counter and history forward |
| `RingProtocol.PublishedMeans` | MovilCam/windows/native/src/ring.cpp:44-62 | A whole call leaves one more frame: whole in its slot with its time and size, even number, `published`, `totalFrames` and `lastQpc` set |
| `FrameRing.FrameRing.Create` | MovilCam/windows/native/src/ring.cpp:6-33 | Succeeds exactly for the permitted sizes when the name was free and the system calls worked, and leaves the header and the empty ring of the protocol |
| `FrameRing.FrameRing.Close` | MovilCam/windows/native/src/ring.cpp:34-41 | Lets go of the mapping and keeps the private counter |
| `FrameRing.FrameRing.Publish` | MovilCam/windows/native/src/ring.cpp:42-63 | Refused exactly without header, picture or right size; otherwise the mapping goes through precisely the protocol steps of one call, and the picture stands 64 bytes into its slot, one of three after the 64-byte header |
| `FrameRing.FrameRing.CopyPicture` | MovilCam/windows/native/src/ring.cpp:51-52 | The copy loop makes one protocol step a byte |
| `FrameRing.FrameRing.Announce` | MovilCam/windows/native/src/ring.cpp:53-61 | The stores after the copy are the last six protocol steps, in this order |
| `FrameRing.Mapping.StoreByte` | MovilCam/windows/native/src/ring.cpp:46-52 | A byte stored at a slot address changes that byte of that slot and of no other |
| `RingLayout.LayoutSound` | MovilCam/windows/native/src/ring.cpp:10-22 | For all accepted sizes the slots are disjoint, 64-aligned, inside the mapping and large enough for header and picture, the mapping is three of them and its header, and the 32-bit size guard never fires |
| `RingLayout.OpenAcceptsCreated` | MovilCam/windows/native/virtualcam/virtualcam.cpp:45-51 | `open` accepts a header written by `create` exactly for width >= 160, height >= 120 and fps 60 |
| `RingLayout.AcceptsIff` | MovilCam/windows/native/virtualcam/virtualcam.cpp:45-51 | The field-by-field test of the life-cycle model is the chain of comparisons in `open`, with its constants |
| `RingLifecycle.MoveInv` | MovilCam/windows/native/src/ring.cpp:6-41 | Every step of create, open and close, by any number of processes, keeps the life-cycle invariant |
| `RingLifecycle.AttachedSawWholeHeader` | MovilCam/windows/native/virtualcam/virtualcam.cpp:38-54 | A reader that passed `open` saw every field of one finished `create`, and the mapping still holds it |
| `RingLifecycle.HeldNeverReinitialised` | MovilCam/windows/native/src/ring.cpp:17-30 | Over any run, a mapping that some process holds, with `open` finished or not, is not created anew while that process holds it, and once its magic is set its header does not change |
| `RingLifecycle.AttachedNeverReinitialised` | MovilCam/windows/native/virtualcam/virtualcam.cpp:38-54 | A reader that passed `open` holds until it closes, and what it saw stays true all the while |
| `RingLifecycle.OneWriter` | MovilCam/windows/native/src/ring.cpp:14-20 | At most one ring at a time has the mapping open for writing |
| `RingLifecycle.CreateSucceedsIffFree` | MovilCam/windows/native/tests/ring_test.cpp:32-38 | `create`, run to its end with a willing system, succeeds exactly when nobody holds the mapping |
| `VirtualCamera.SharedReader.Open` | MovilCam/windows/native/virtualcam/virtualcam.cpp:38-54 | True exactly if already open or the named mapping has an acceptable header; sizes change only when a mapping is newly accepted |
| `VirtualCamera.SharedReader.Latest` | MovilCam/windows/native/virtualcam/virtualcam.cpp:58 | The counter at one moment, 0 without a mapping |
| `VirtualCamera.SharedReader.CopyLatest` | MovilCam/windows/native/virtualcam/virtualcam.cpp:66-88 | Under any interference a true result fills the buffer with one accepted frame that is not older than the newest at the call; a false one needs six further frames; bytes past the capacity stay |
| `VirtualCamera.SharedReader.Attempt` | MovilCam/windows/native/virtualcam/virtualcam.cpp:69-85 | One attempt of the loop is a sequence of protocol reader steps with the broker running in between |
| `VirtualCamera.SharedReader.CopySlot` | MovilCam/windows/native/virtualcam/virtualcam.cpp:78-79 | The copy leaves exactly what the protocol reader has copied, one byte a step, whatever the broker does meanwhile |
| `VirtualCamera.CameraPin.FillBuffer` | MovilCam/windows/native/virtualcam/virtualcam.cpp:210-256 | Every delivered sample is, in all its bytes, one published frame, its exact YUY2 conversion or the full black picture; frames are not older than the newest at the call and never go back; black, luma 16 and chroma 128 in every byte of either format, comes only without a ring, with a stale, different or empty one, or when six more frames overtook the copy; a frame is repeated only after 36 looks found nothing newer; the k-th sample lasts from k*frameTime to (k+1)*frameTime; a refused sample changes nothing |
| `VirtualCamera.CameraPin.WaitForFrame` | MovilCam/windows/native/virtualcam/virtualcam.cpp:224-228 | Up to 35 more looks at the counter: none if a new frame is there at the first, and fewer than 35 only if one came |
| `VirtualCamera.CameraPin.constructor` | MovilCam/windows/native/virtualcam/virtualcam.cpp:127-133 | Size and frame time are those of the ring if there is an acceptable one, else 1920x1080 at 60 frames a second |
| `VirtualCamera.CameraPin.TryFrame` | MovilCam/windows/native/virtualcam/virtualcam.cpp:229-238 | A frame in the negotiated format, not older than the newest at the call; nothing only if six more frames came |
| `VirtualCamera.CameraPin.FillBlack` | MovilCam/windows/native/virtualcam/virtualcam.cpp:240-248 | Every byte of the sample is luma 16 or chroma 128, where each belongs in either format |
| `VirtualCamera.BlackAt` | MovilCam/windows/native/virtualcam/virtualcam.cpp:247 | Every byte of the YUY2 picture is luma 16 or chroma 128, in turn |
| `VirtualCamera.BlackConverted` | MovilCam/windows/native/virtualcam/virtualcam.cpp:243-247 | The two black pictures are one: converting the NV12 one gives the YUY2 one |
| `Planes.Nv12ToYuy2` | MovilCam/windows/native/virtualcam/virtualcam.cpp:95-109 | The loops put exactly the converted picture into place, in bounds, and change nothing past it |
| `PixelMap.ConvertedAt` | MovilCam/windows/native/virtualcam/virtualcam.cpp:98-107 | Output byte by byte: the luma of pixel (x, y) and the chroma sample x of row y/2, for every pixel |
| `Planes.Yuy2RoundTrip` | MovilCam/windows/native/virtualcam/virtualcam.cpp:95-109 | For even heights the conversion has a left inverse: no sample is lost |
| `Planes.CopyRows` | MovilCam/windows/native/src/decoder.cpp:147-151 | Row copies put exactly the rows of the strided plane into their place, one after another, and change nothing else |
| `PixelMap.RowsAt` | MovilCam/windows/native/src/decoder.cpp:147-151 | Column x of row y of the repacked plane is column x of row y of the strided one |
| `Planes.RowsRestore` | MovilCam/windows/native/src/decoder.cpp:147-151 | Repacking gives a plane exactly if the surface shows that plane at its pitch |
| `Decoder.LockedInside` | MovilCam/windows/native/src/decoder.cpp:140-151 | What the guard of the locked layout lets through reads only inside the buffer |
| `Decoder.PaddedInside` | MovilCam/windows/native/src/decoder.cpp:165-174 | What the guard of the padded layout lets through reads only inside the buffer |
| `Decoder.RepackedRestores` | MovilCam/windows/native/src/decoder.cpp:147-175 | Repacking restores the contiguous frame byte for byte exactly if the surface shows it where the branch looks |
| `Decoder.LockedPicture` | MovilCam/windows/native/src/decoder.cpp:138-155 | A locked surface, with the chroma after the height rounded up to 16 rows or, in a smaller buffer, after the height: what is taken is a frame exactly if that frame stands there; a surface that fails the guard is passed over |
| `Decoder.RawPicture` | MovilCam/windows/native/src/decoder.cpp:158-176 | A plain buffer of just the frame size is the frame; one that is larger by at most 48 widths and holds the rounded height gives a frame exactly if it stands there with its chroma after the rounded rows; any other is refused |
| `Decoder.AlignedPicture` | MovilCam/windows/native/src/decoder.cpp:165-175 | A buffer of exactly the rounded planes, 1088 rows for 1080, gives the frame in it, with or without padding |
| `Decoder.H264Decoder.Repack` | MovilCam/windows/native/src/decoder.cpp:130-178 | The three layouts are tried in order; there is a picture exactly if one fits, and it is that one |
| `Decoder.H264Decoder.CopyNv12` | MovilCam/windows/native/src/decoder.cpp:125-180 | The picture of the buffer is published whole, or the ring does not change |
| `HubSpec.HistoryRefinesLog` | MultiChat/hub.go:33-57 | After every run `recent` is the last min(n, cap) accepted messages, `seen` holds all keys of the history and only keys of accepted messages, and equal keys are more than cap log positions apart |
| `HubSpec.PublishInv` | MultiChat/hub.go:33-57 | Every `publish`, with or without a rebuild, keeps the hub invariant |
| `HubSpec.NewestKept` | MultiChat/hub.go:50 | The history is the newest min(n, cap) accepted messages in their order |
| `HubSpec.RecentKeyRefused` | MultiChat/hub.go:45-48 | A key among the last cap accepted messages is refused |
| `HubSpec.NewKeyAccepted` | MultiChat/hub.go:39-48 | A complete message without a key, or with a key never accepted, is let in |
| `HubSpec.RepeatRefused` | MultiChat/hub.go:42-48 | A message with the platform and ID of one of the last cap accepted messages changes nothing |
| `HubSpec.NewPairAccepted` | MultiChat/hub.go:39-49 | A complete message without an ID, or whose platform and ID no accepted message has, is accepted, unless a slash in a platform makes two pairs one key |
| `HubSpec.PlainPlatforms` | MultiChat/hub.go:42-48 | Between platforms without a slash, nothing but the same platform and ID can refuse a complete message |
| `HubSpec.IncompleteRefused` | MultiChat/hub.go:39 | A message without a platform or a text changes nothing |
| `HubSpec.OneKey` | MultiChat/hub.go:42-43 | Two messages with IDs have one key exactly if platform and ID agree or a slash in the longer platform makes up for the difference |
| `HubSpec.SlashCollides` | MultiChat/hub.go:42-43 | Concretely: "c" on "a/b" is refused after "b/c" on "a" |
| `HubSpec.Cleaned` | MultiChat/hub.go:34-38 | Each field is trimmed and cut at its own limit, the platform in lower case |
| `HubSpec.Completed` | MultiChat/hub.go:40-41 | Only a missing user and a missing time are filled in |
| `HubSpec.RebuildCost` | MultiChat/hub.go:51-54 | The table never holds more than 4*cap keys, and all rebuild loops together visited fewer than n/3 entries |
| `HubSpec.RebuildsFarApart` | MultiChat/hub.go:51-54 | At least 3*cap+1 keyed messages are accepted between two rebuilds, 4*cap+1 before the first |
| `HubDelivery.Delivery` | MultiChat/hub.go:55-62 | Over any interleaving, what a subscriber received plus its queue is, in order, what was accepted while it was subscribed minus the dropped messages; the queue never exceeds 128 and a message is dropped exactly when it was full |
| `HubDelivery.StretchBegins` | MultiChat/hub.go:58-60 | What a subscriber is owed begins with the first message accepted after it subscribed |
| `HubDelivery.StretchEnds` | MultiChat/hub.go:61 | and ends with the last one accepted before it cancelled |
| `HubDelivery.RoomIsHub` | MultiChat/hub.go:55 | Subscribers have no influence on what is accepted: in any interleaving the hub is the hub of the posted messages alone |
| `HubProgram.Hub.constructor` | MultiChat/hub.go:25-28 | A limit below 1 becomes 250; the hub starts empty |
| `HubProgram.Hub.Publish` | MultiChat/hub.go:33-57 | The method on fields, loops and channels is the specified step, and tells each subscriber or drops |
| `HubProgram.Hub.Store` | MultiChat/hub.go:45-54 | Refused exactly if platform, slash and ID are in the table; otherwise history, table and rebuild as specified |
| `HubProgram.Hub.Rebuild` | MultiChat/hub.go:52-53 | The rebuilt table is exactly the keys of the history |
| `HubProgram.Hub.Broadcast` | MultiChat/hub.go:55 | Every subscriber gets the message unless its channel is full |
| `HubProgram.Hub.Subscribe` | MultiChat/hub.go:58-60 | A new empty channel joins the subscribers |
| `HubDelivery.NothingAfterUnsubscribe` | MultiChat/hub.go:61 | After it cancelled, a subscriber can drain its queue and gets nothing more, whatever happens |
| `HubProgram.Hub.Snapshot` | MultiChat/hub.go:63-66 | The last cap messages ever accepted, all of whose keys are in the table |
| `AnnexBReader.NormalizeKeepsUnits` | MovilCam/app/src/main/java/com/solarispkn/movilcam/H264AnnexB.java:15-52 | For non-empty lists of valid NAL units, the output of `normalize` on their length-prefixed form reads back, after sections B.1 and B.2 of Annex B of ITU-T H.264, as the same list if and only if the first length is neither 1 nor 256..511 or all units have one byte |
| `AnnexBReader.NormalizeDecides` | MovilCam/app/src/main/java/com/solarispkn/movilcam/H264AnnexB.java:24-52 | Without a leading start code the conversion is taken exactly for sequences of non-empty length-prefixed units; anything else is wrapped once, whole |
| `AnnexBReader.NormalizeIdempotent` | MovilCam/app/src/main/java/com/solarispkn/movilcam/H264AnnexB.java:24-52 | Normalizing twice is normalizing once |
| `AnnexBReader.StreamRoundTrip` | MovilCam/app/src/main/java/com/solarispkn/movilcam/H264AnnexB.java:41-51 | Every list of valid NAL units written with start codes reads back as that list |
| `AnnexBReader.ConfigReadsBack` | MovilCam/app/src/main/java/com/solarispkn/movilcam/H264AnnexB.java:54-61 | Whatever framing each parameter set came in, the configuration is read as the units of the first and then of the second |
| `AnnexBReader.RawReadsBack` | MovilCam/app/src/main/java/com/solarispkn/movilcam/H264AnnexB.java:47-51 | A raw unit is read back as itself |
| `AnnexBReader.NormalizeLosesUnits` | MovilCam/app/src/main/java/com/solarispkn/movilcam/H264AnnexB.java:24-26 | A concrete list of two valid units that is not kept |
| `AnnexB.SplitExact` | MovilCam/app/src/main/java/com/solarispkn/movilcam/H264AnnexB.java:31-46 | A byte string is a sequence of length-prefixed units in at most one way |
| `AnnexB.Normalize` | MovilCam/app/src/main/java/com/solarispkn/movilcam/H264AnnexB.java:24-52 | The method, with its null and empty cases, computes the specified function |
| `AnnexB.Convert` | MovilCam/app/src/main/java/com/solarispkn/movilcam/H264AnnexB.java:28-51 | The loop over `off` converts all or nothing and terminates |
| `AnnexB.WriteConfig` | MovilCam/app/src/main/java/com/solarispkn/movilcam/H264AnnexB.java:54-61 | The loop over both parameter sets joins their normal forms |
| `WireFormat.SessionRecovers` | MovilCam/windows/native/src/main.cpp:81-121 | From the phone to the decoder, for every cut of the link: a session is accepted exactly for a header in range at 60 fps, with that header and exactly the packets that arrived whole before the first refused one |
| `WireFormat.CutRecovers` | MovilCam/windows/native/src/main.cpp:112-121 | Cut at any byte, the receive loop gets exactly a prefix of the packets: those that arrived whole, up to the first with unknown flags |
| `WireFormat.FramesRoundTrip` | MovilCam/app/src/main/java/com/solarispkn/movilcam/CameraService.java:188-199 | Every list of packets `writePacket` lets through comes back with flags, 64-bit timestamps and payloads exactly if no packet has flags beyond the two known bits |
| `WireFormat.UnknownFlagRefused` | MovilCam/windows/native/include/protocol.hpp:46 | A concrete packet that `writePacket` lets through and the broker refuses |
| `WireLink.Link` | MovilCam/windows/native/src/main.cpp:81-121 | The phone writes, the link breaks anywhere and comes in any pieces, the broker reads: header and packets are a prefix of what was sent and, unless a `recv` fails, all that was brought; nothing is missing from an uncut stream with known flags |
| `WireLink.SendPackets` | MovilCam/app/src/main/java/com/solarispkn/movilcam/CameraService.java:188-199 | A list of packets through one reused header buffer is the printed list |
| `WireLink.AcceptedGetsRing` | MovilCam/windows/native/src/main.cpp:98-101 | Every stream the broker accepts has a size `create` takes, and the ring is one that cameras accept |
| `WireFormat.ReceivedWasSent` | MovilCam/windows/native/include/protocol.hpp:43-47 | Whatever bytes arrive, the accepted packets are ones the phone could have sent, and their printed form is what the bytes begin with |
| `WireFormat.HeaderRoundTrip` | MovilCam/windows/native/include/protocol.hpp:35-42 | The printed stream header is read back exactly if it is in the ranges `parse_stream` checks |
| `WireFormat.HeaderLayout` | MovilCam/app/src/main/java/com/solarispkn/movilcam/CameraService.java:217-224 | The 20 bytes: MCV2, width, height, rate, high byte first, and a zero |
| `WireFormat.HeadRoundTrip` | MovilCam/windows/native/include/protocol.hpp:43-47 | A packet header is read back exactly for 1 byte to 2 MiB and no unknown flag |
| `WireFormat.FrameLayout` | MovilCam/app/src/main/java/com/solarispkn/movilcam/CameraService.java:188-199 | A packet byte for byte: size, flags and timestamp, high byte first, then the payload |
| `WireProgram.Put32` | MovilCam/app/src/main/java/com/solarispkn/movilcam/CameraService.java:181-184 | Four bytes are overwritten with the low 32 bits, high byte first; the rest stays |
| `WireProgram.Put64` | MovilCam/app/src/main/java/com/solarispkn/movilcam/CameraService.java:185-187 | Eight bytes are overwritten with the 64 bits, high byte first; the rest stays |
| `WireProgram.WritePacket` | MovilCam/app/src/main/java/com/solarispkn/movilcam/CameraService.java:188-199 | Refused exactly for 0 or more than 2 MiB, with nothing written; otherwise one whole frame is appended, whatever the reused header held |
| `WireProgram.WriteStreamHeader` | MovilCam/app/src/main/java/com/solarispkn/movilcam/CameraService.java:217-224 | The 20 bytes of the stream header |
| `WireProgram.Connection.RecvAll` | MovilCam/windows/native/src/main.cpp:45-53 | Exactly the bytes asked for, in any number of pieces, or false after fewer |
| `WireProgram.Connection.ReceivePackets` | MovilCam/windows/native/src/main.cpp:112-121 | For every fragmentation the loop decodes exactly what the bytes taken off the link say, and ends only if they are refused, used up or the link fails |
| `WireProgram.Connection.Once` | MovilCam/windows/native/src/main.cpp:81-121 | The whole session is a function of the bytes taken off the link, however they were cut; it is rejected early only if the link ends or fails or the header was read whole |
| `Bytes.Be32RoundTrip` | MovilCam/windows/native/include/protocol.hpp:17-29 | Reading back a written 32-bit number gives it, up to its width |
| `Bytes.Be64RoundTrip` | MovilCam/windows/native/include/protocol.hpp:21-32 | Reading back a written 64-bit number gives it, up to its width |
| `HtmlText.OneMap` | PublisherSuite/Linkedin/src/core/convert-mdx.js:535-546 | The five (six) sequential `replaceAll` passes equal one simultaneous character map |
| `HtmlText.EscapedBy` | PublisherSuite/Linkedin/src/core/convert-mdx.js:535-546 | Escaping works character by character, with these six references |
| `HtmlScanner.EscapedReads` | PublisherSuite/Linkedin/src/core/convert-mdx.js:535-546 | A tokenizer inside text or a quoted value takes any escaped string for exactly the original and is still there |
| `HtmlScanner.EmitsElement` | PublisherSuite/Linkedin/src/core/convert-mdx.js:156-267 | A start tag with quoted attributes, a well-nested piece and the end tag are a well-nested piece |
| `MdxNesting.RenderRight` | PublisherSuite/Linkedin/src/core/convert-mdx.js:156-267 | Every node is printed as the tokenizer events of the document it stands for, empty only if there are none |
| `MdxConvert.ConvertWellNested` | PublisherSuite/Linkedin/src/core/convert-mdx.js:64-78 | For every tree and every string in it, the article takes the tokenizer from text mode with open elements S back to text mode with the same S |
| `MdxPages.TitlePage` | PublisherSuite/Linkedin/src/core/convert-mdx.js:66-69 | The first child that is neither front matter nor a module is left out exactly if it is a heading of depth 1 |
| `MdxPages.KindPage` | PublisherSuite/Linkedin/src/core/convert-mdx.js:175-228 | Strong, emphasis, deletion, quotation, row and cell, each with its own tags around its children |
| `MdxPages.HeadingPage` | PublisherSuite/Linkedin/src/core/convert-mdx.js:168-174 | Depths 1 to 6 as h1 to h6, clamped, none as h2, the title as nothing |
| `MdxPages.ParagraphPage` | PublisherSuite/Linkedin/src/core/convert-mdx.js:164-167 | p around the children unless all of them are images |
| `MdxPages.ListPage` | PublisherSuite/Linkedin/src/core/convert-mdx.js:189-195 | ul or ol, with a start unless it is 1 |
| `MdxPages.ListItemPage` | PublisherSuite/Linkedin/src/core/convert-mdx.js:196-201 | li, with its checkbox before the children |
| `MdxPages.LinkPage` | PublisherSuite/Linkedin/src/core/convert-mdx.js:202-206 | The cleared and escaped address, and the title if there is one |
| `MdxPages.TablePage` | PublisherSuite/Linkedin/src/core/convert-mdx.js:221-224 | table and tbody around the rows, counted once |
| `MdxPages.FootnotePage` | PublisherSuite/Linkedin/src/core/convert-mdx.js:229-230 | The section begins with the name of the note |
| `MdxPages.ComponentPage` | PublisherSuite/Linkedin/src/core/convert-mdx.js:243-256 | br as a break, eight names as nothing, others as their children or a notice |
| `MdxPages.ReferencePage` | PublisherSuite/Linkedin/src/core/convert-mdx.js:257-260 | The children or, without any, the first text there is |
| `MdxPages.LeafPage` | PublisherSuite/Linkedin/src/core/convert-mdx.js:162-232 | Text, inline code and footnote references, escaped |
| `MdxPages.NoticePage` | PublisherSuite/Linkedin/src/core/convert-mdx.js:214-242 | Lines, breaks, notices and nodes that print nothing |
| `MdxPages.CodePage` | PublisherSuite/Linkedin/src/core/convert-mdx.js:183-186 | pre and code with the language if there is one |
| `MdxPages.ImagePage` | PublisherSuite/Linkedin/src/core/convert-mdx.js:207-213 | The placeholder with number, text and address, and the entry in the list |
| `MdxConvert.AssetsMatchMarkers` | PublisherSuite/Linkedin/src/core/convert-mdx.js:207-213 | The assets are the live images in document order with indices 1..n, and the image markers in the page are exactly 1..n in that order |
| `MdxConvert.ShownMarked` | PublisherSuite/Linkedin/src/core/convert-mdx.js:156-267 | No other node puts an image marker into the page, and each live image puts exactly one |
| `MdxConvert.AssetsListed` | PublisherSuite/Linkedin/src/core/convert-mdx.js:207-213 | Rendering appends exactly the live images, numbered on from those before |
| `HtmlText.DigitsReadBack` | PublisherSuite/Linkedin/src/core/convert-mdx.js:212-213 | A printed index reads back as its number |
| `MdxProgram.ArticleContext.Render` | PublisherSuite/Linkedin/src/core/convert-mdx.js:156-267 | The recursive method on the shared context computes the specified rendering (letter for letter in `MdxPages`), assets and table count |
| `MdxProgram.ArticleContext.Children` | PublisherSuite/Linkedin/src/core/convert-mdx.js:157 | Children are rendered from left to right and joined |
| `MdxProgram.ArticleContext.AddImage` | PublisherSuite/Linkedin/src/core/convert-mdx.js:207-213 | An image is entered in the list before its placeholder is written |
| `Upload.CountLimit` | PublisherSuite/VideoPublisher/src/core/publishers.js:83-84 | The chunk count is at most 1000 exactly for sizes up to 64000 MiB |
| `Upload.ChunkLeast` | PublisherSuite/VideoPublisher/src/core/publishers.js:83 | The chunk is the least size from 5 to 64 MiB for which 1000 are enough, or 64 MiB |
| `Upload.AsAnnounced` | PublisherSuite/VideoPublisher/src/core/publishers.js:83-85 | The number of PUTs is the declared `total_chunk_count`, every one but the last has the declared size, and so has one alone |
| `Upload.RangesTile` | PublisherSuite/VideoPublisher/src/core/publishers.js:119-123 | The ranges of the PUTs are adjacent, cover the file from first to last byte and carry exactly those bytes |
| `Upload.PartsTile` | PublisherSuite/VideoPublisher/src/core/publishers.js:119-128 | The pieces of both loops partition the file in order, none empty, all full but the last, as many as the rounded-up quotient |
| `Upload.TusStoresFile` | PublisherSuite/VideoPublisher/src/core/publishers.js:125-129 | A server that accepts a PATCH only at its current offset accepts them all and ends with the file |
| `Upload.UploadChunks` | PublisherSuite/VideoPublisher/src/core/publishers.js:119-123 | The loop sends exactly these ranges |
| `Upload.UploadTus` | PublisherSuite/VideoPublisher/src/core/publishers.js:125-129 | The loop sends exactly these pieces |
| `Journal.DailyBound` | PublisherSuite/VideoPublisher/src/core/publishers.js:10-27 | Over every serial run with a clock that does not go back, no day, from one 03:00 UTC to the next, gets more published jobs than the limit |
| `Journal.DayIs` | PublisherSuite/VideoPublisher/src/core/publishers.js:153 | A calendar day in Buenos Aires lasts from 03:00 UTC to 03:00 UTC |
| `Journal.OnDayIs` | PublisherSuite/VideoPublisher/src/core/publishers.js:150 | Counting by calendar day is counting the moments of that interval |
| `Journal.Limit` | PublisherSuite/VideoPublisher/src/core/publishers.js:150 | The number from 1 to 10 nearest to the configured one; without one it is 2 |
| `Journal.RefusedWhenFull` | PublisherSuite/VideoPublisher/src/core/publishers.js:150-151 | A job is refused exactly when its day is full, although the journal is pruned to 100 entries |
| `Journal.FirstOfDay` | PublisherSuite/VideoPublisher/src/core/publishers.js:10-25 | A job that crosses midnight between check and entry is the first of its new day |
| `Journal.StepInv` | PublisherSuite/VideoPublisher/src/core/publishers.js:10-27 | Every job keeps the journal invariant |
| `Journal.PublishQueue.EnforceDailyLimit` | PublisherSuite/VideoPublisher/src/core/publishers.js:150 | The counting loop refuses exactly when the journal has as many entries since the last midnight in Buenos Aires as the limit allows |
| `Journal.PublishQueue.AppendJournal` | PublisherSuite/VideoPublisher/src/core/publishers.js:151 | Pruned to the newest 100, the journal counts the new entry and every earlier one of its day |
| `Journal.PruningKeepsToday` | PublisherSuite/VideoPublisher/src/core/publishers.js:151 | Pruning loses no entry of a day that is not over, as long as a day has fewer than 100 |
| `Journal.PublishQueue.PublishTargets` | PublisherSuite/VideoPublisher/src/core/publishers.js:10-27 | One job: refused exactly if its day, from midnight to midnight in Buenos Aires, is full; otherwise targets in turn, and one entry dated at the end if any was published |

## Left out

- Weak memory: shared accesses are interleaved one at a time, which is what the barriers and interlocked stores aim for.
- 64-bit counters of the ring are unbounded integers; they would overflow only after 2^62 frames.
- Liveness of re-creating the ring: the code refuses while a consumer holds it, so only safety and the exact condition for success are stated.
- The clock behind `isFresh` is a parameter of `FillBuffer`; the load of `lastQpc` is not a step of its own.
- The control pipe and its reconnect counter, Media Foundation, Direct3D and DirectShow calls; a locked buffer is given as bytes, start and pitch.
- Slot headers have cells of their own beside the flat bytes of the mapping, so a picture byte that hit one is excluded by the layout theorem and not by the class; the reader's class takes slots by number, not by address.
- Products and halves of the picture loops are written as repeated sums (`Planes.Span`, `Planes.Half`), which are proved to be those products and halves.
- The decoder behind the receive loop: its verdicts, the count of failures after which `once` reconnects, and the end of the loop when no client is left. A stop between or inside packets is covered as a failing `recv`.
- The handshake of protocol v2, and everything before the first byte of the stream header.
- The limits of Java arrays and of memory in `normalize`, `config` and `writePacket`; a sum of two array lengths that would overflow is negative there and beyond the limit here, and refused in both.
- Trimming of white space and lower-casing in the hub are parameters; strings are sequences of characters, so malformed UTF-8 is not modelled.
- The lock of the hub: `publish`, `subscribe` and the cancel function are atomic steps.
- Warnings of the converter, its plain-text form, metadata and slug.
- The Markdown parser, the URL engine and the cleaning of alternative texts: the tree is given and what those return is an arbitrary string.
- The identity test on the title heading is a mark on the node, set where the converter finds its title.
- Tree construction in HTML: end tags that a browser implies (a figure inside a paragraph) are not modelled, nesting is that of the written tags. NUL and carriage return count as ordinary characters.
- Rounding of JavaScript numbers: sizes, moments and indices are integers.
- Overlapping publish requests and unreadable journals; jobs are serial by design, and the journal starts empty.
- The journal's entries are their moments; digest and target list are not used by the limit. The offset of Buenos Aires is the constant three hours in force since 2009.
- Which targets of a job are published is given as a list of outcomes.
- Platform payloads, credentials, HTTP, sockets, files, the encoder and the camera.
