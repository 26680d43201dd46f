# Exynos camera HAL: models and proofs

Dafny models of the parts of the Exynos camera HAL whose correctness depends on more than one function
at a time, with the properties they are meant to have. `dafny verify dfyconfig.toml` checks everything.

## What is modelled

**EXIF and JPEG** (`Bytes`, `Tiff`, `Exif*`, `Jpeg*`). `makeExif` is a hand-written TIFF serializer with
two cursors: one inside the open directory, one at the end of the stored values. `IfdWriter` keeps both
over one output array; the four `writeExifIfd` overloads are methods on it. `ExifDocument` says what
document an attribute record should become. The methods in `ExifEncoder` and `ExifSegment` are proved to
leave exactly that document in the buffer, including the pointers filled in afterwards and the
thumbnail directory that is taken back when the document grows too large. `ExifReader` is an
independent reader written from TIFF 6.0 section 2 and Exif 2.2 sections 4.6.3 and 4.7.2, and `ExifMeaning`
says in numbers, tag by tag, what a picture must say of a record; `ExifRoundTrip`, `ExifFidelity` and
`JpegReader` prove what is recovered. `JpegEncoder` models the thumbnail retry and the in-place splice of
the segment into the JPEG stream.

**Flash** (`Flash*`). `FlashModel` is the sequencer as a state machine; `FlashSequencer` has the class with
the fields of `ExynosCameraActivityFlash`, grouped in four records, and its callbacks and setters, each
proved to take one step of that machine. One callback or setter is one step; the control block travels
from frame to frame. `FlashRuns` proves bounded progress against any firmware, `FlashSafety` the order of
states, the relation of AUTO to ON, and when a cancel can be lost, `FlashLight` which frames carry which
light.

**Autofocus** (`Focus*`). The same shape, smaller.

**Bayer buffers** (`Bayer*`). `BayerNode` is a video node: the driver's queue is a ghost set, the answers of
the kernel are parameters. `BayerQueue` has the FIFO, the locks and the four operations; `BayerRuns` proves
ownership over whole runs, `BayerLocks` which buffers are held for a capture. With the back camera buffers
are queued through a node that shares its descriptor and keeps no flags, which is `dup` here.

**Crop and focus areas** (`Crop`, `FocusArea`). `float` is idealised as `real`, truncation is kept, and the
area mapping uses wrapping 32-bit products and division towards zero.

**Gralloc** (`Gralloc*`). Planes, their descriptors and mappings; the kernel is a map of open descriptors
and a map of mappings, with the lengths behind them.

## What the proofs say about the code

- The overloads that take an offset never store a value in the entry, so a text of at most three
  characters (maker, model, software) and a maker note of at most four bytes are read back as part of
  their own offset. `ExifFidelity.RoundTrip` gives the exact condition.
- `makeExif` shifts the user comment in place and leaves the character code in front of it. The code is
  stored in reverse, so it begins with a zero byte, and a second picture from the same record carries an
  empty comment (`JpegReader.NextComment`).
- `makeExif` compares the document with 64K, `encode` the document and ten bytes more. A thumbnail that
  lands in between makes `encode` leave out the whole segment (`JpegReader.Fates`); every record has ten
  such lengths (`JpegReader.LostLengths`, `JpegReader.SegmentLost`).
- A thumbnail that cannot be mapped is found only when the main document has been written: `encode` fails,
  and the comment of the record has been shifted all the same (`JpegEncoder.EncodePicture`).
- `waitMainReady` and `waitMainReadyShortTouch` set MAIN_READY by force. Unless the sequencer was in
  PRE_DONE or MAIN_READY, the main flash can then fire without a pre-flash
  (`FlashSafety.GivenUpSkipsPreFlash`).
- A frame in MAIN_READY carries whatever the frame before it carried. If no frame goes out in PRE_DONE, the
  torch of the pre-flash stays lit until the main flash (`FlashLight.TorchOutlives`).
- `setFlashStep` starts the step error counter at zero and only a positive counter counts, so it never does
  (`FlashRuns.ErrorsNeverCount`).
- With a touch trigger, MAIN_READY times out and clears a cancel that no frame has carried yet
  (`FlashSafety.CancelIsKept`). The callers set the cancel before they set the trigger to off.
- In the infinity mode a scan keeps the failure count of a scan that was broken off, so its first failing
  frame can end it (`FocusRuns.InfinityInheritsCount`).
- A dequeue that reports an error keeps the flag of the buffer: the buffer is out of both queues until
  the node is reset (`BayerNode.SpoiltIsLost`).
- When the front camera drains several completed buffers into an empty FIFO, the buffers that go back to
  the sensor come from the front of the FIFO, and the one handed to the caller is among them
  (`BayerRuns.FrontBufferStays`).
- `m_stopSensor` logs a failing `stopSensorOff` and goes on. If the stream could not be switched off or
  the buffers not given back, the FIFO keeps its entries, and the next start queues those buffers once
  more (`BayerRuns.FailedStopDoubles`). Ownership holds exactly while no start finds a buffer it loads in the FIFO (`BayerRuns.NoBufferTwice`,
  `BayerRuns.StartIsSafe`), in particular when stops before starts succeed (`BayerRuns.ProperStartsKeep`).
- `gralloc_map` checks the mapping of the first plane only. A refused chroma plane is reported as success,
  and every lock until the next unregistration hands out the address of the failure
  (`GrallocRuns.LockAddresses`).

The comments beside the firing times of the flash say one second; the values are 50, 500 and 10 000
milliseconds, and the model follows the values.

## Model

| member | source | states |
|---|---|---|
| Bytes.CopyInto | libcamera/ExynosJpegEncoderForCamera.cpp:725-732 | `memcpy` overwrites the bytes it names and no other |
| Bytes.MoveWithin | libcamera/ExynosJpegEncoderForCamera.cpp:359 | `memmove` between overlapping regions leaves the old source bytes at the destination |
| Tiff.PatchSlot | libcamera/ExynosJpegEncoderForCamera.cpp:518-552 | filling in a pointer slot turns the directory into the one with that pointer and changes twelve bytes only |
| Tiff.PatchNext | libcamera/ExynosJpegEncoderForCamera.cpp:651-652 | the same for the next pointer |
| Tiff.DirectoryReads | libcamera/ExynosJpegEncoderForCamera.cpp:719-792 | a directory in the writer's layout, wherever it stands in a file, reads back by TIFF 6.0 section 2 with every tag, type, count and value, a stored value of at most four bytes as the leading bytes of its offset |
| Tiff.EncodeSize | libcamera/ExynosJpegEncoderForCamera.cpp:418 | a directory of n entries takes 2 + 12n + 4 bytes and its stored values |
| ExifSizes.PayloadsDisjoint | libcamera/ExynosJpegEncoderForCamera.cpp:754-792 | stored values of one directory do not overlap and end where the heap ends |
| ExifSizes.DirectorySizes | libcamera/ExynosJpegEncoderForCamera.cpp:409-599 | in every configuration each directory with its values ends exactly where the next begins, the declared counts are the entries written, and the whole is the size the offset reaches |
| ExifSizes.ThumbSize | libcamera/ExynosJpegEncoderForCamera.cpp:650-685 | the thumbnail directory has nine entries and takes 130 bytes with its values |
| ExifSizes.MainSizeBound | libcamera/ExynosJpegEncoderForCamera.cpp:409-599 | everything but maker note and thumbnail fits 1188 bytes, whatever the record |
| ExifWriter.PutSlot | libcamera/ExynosJpegEncoderForCamera.cpp:725-732 | the four copies of an overload write one 12-byte entry |
| ExifWriter.PutInt | libcamera/ExynosJpegEncoderForCamera.cpp:719-733 | the integer overload writes tag, type, count and value in little-endian order |
| ExifWriter.PushSlot | libcamera/ExynosJpegEncoderForCamera.cpp:754-772 | writing the next entry and its stored value extends the open directory and disturbs nothing written before |
| ExifWriter.IfdWriter.Begin | libcamera/ExynosJpegEncoderForCamera.cpp:409-418 | a directory opens where the stored values end, with its count, room for its entries and next pointer; what lies before is untouched |
| ExifWriter.IfdWriter.WriteLong | libcamera/ExynosJpegEncoderForCamera.cpp:719-733 | appends a LONG entry |
| ExifWriter.IfdWriter.WriteShort | libcamera/ExynosJpegEncoderForCamera.cpp:719-733 | appends a SHORT entry although four bytes are copied |
| ExifWriter.IfdWriter.WriteSmall | libcamera/ExynosJpegEncoderForCamera.cpp:735-752 | appends an entry whose bytes are in place, zero-padded |
| ExifWriter.IfdWriter.WriteBlob | libcamera/ExynosJpegEncoderForCamera.cpp:754-772 | appends an entry whose bytes are stored at the offset, which advances by their length |
| ExifWriter.IfdWriter.WriteRationals | libcamera/ExynosJpegEncoderForCamera.cpp:774-792 | the same for rationals, eight bytes each |
| ExifWriter.IfdWriter.Skip | libcamera/ExynosJpegEncoderForCamera.cpp:438-441 | steps over one entry, remembers where it is, and leaves its bytes as they are |
| ExifWriter.IfdWriter.Finish | libcamera/ExynosJpegEncoderForCamera.cpp:513-515 | a complete directory with next pointer zero stands in the buffer |
| ExifWriter.IfdWriter.SkipNext | libcamera/ExynosJpegEncoderForCamera.cpp:443-444 | the same with the next pointer still open |
| ExifEncoder.WriteCameraFields | libcamera/ExynosJpegEncoderForCamera.cpp:420-435 | the camera entries of the 0th IFD, in order |
| ExifEncoder.WriteExifHead | libcamera/ExynosJpegEncoderForCamera.cpp:455-498 | the twenty Exif entries before the Interoperability pointer, in order, with the comment shifted on the way |
| ExifEncoder.WriteExifTail | libcamera/ExynosJpegEncoderForCamera.cpp:503-512 | the five Exif entries after it |
| ExifEncoder.ShiftComment | libcamera/ExynosJpegEncoderForCamera.cpp:487-490 | the comment array holds the character code, the old text and the old rest |
| ExifEncoder.WriteIfd0 | libcamera/ExynosJpegEncoderForCamera.cpp:409-444 | the 0th IFD stands at offset 8 with the Exif pointer, and the places of the GPS and next pointers are known |
| ExifEncoder.WriteExifIfd | libcamera/ExynosJpegEncoderForCamera.cpp:446-519 | the Exif IFD stands where the 0th ends, its Interoperability pointer filled in |
| ExifEncoder.WriteInteropIfd | libcamera/ExynosJpegEncoderForCamera.cpp:521-547 | the Interoperability IFD with R98 or THM |
| ExifEncoder.WriteGpsIfd | libcamera/ExynosJpegEncoderForCamera.cpp:554-599 | the GPS IFD with nine or ten entries, by whether there is a processing method |
| ExifEncoder.FillPointer | libcamera/ExynosJpegEncoderForCamera.cpp:551-552 | a skipped entry becomes the pointer; the rest of the buffer is as before |
| ExifEncoder.WriteFront | libcamera/ExynosJpegEncoderForCamera.cpp:405-552 | header, 0th, Exif and Interoperability IFD with all three pointers |
| ExifEncoder.WriteMain | libcamera/ExynosJpegEncoderForCamera.cpp:405-599 | the whole document without thumbnail, for every record, GPS on or off |
| ExifSegment.NextPatched | libcamera/ExynosJpegEncoderForCamera.cpp:696-699 | the next pointer can be set at any time without touching anything else |
| ExifSegment.SetNext | libcamera/ExynosJpegEncoderForCamera.cpp:651-652 | sets it |
| ExifSegment.WriteThumbIfd | libcamera/ExynosJpegEncoderForCamera.cpp:654-683 | the 1st IFD, which points at the thumbnail behind it |
| ExifSegment.WriteThumb | libcamera/ExynosJpegEncoderForCamera.cpp:650-695 | 1st IFD and thumbnail, or, past 64K, the document without them, next pointer zero and offset taken back |
| ExifSegment.WriteDocument | libcamera/ExynosJpegEncoderForCamera.cpp:405-700 | the document of the record with the thumbnail that is kept; a thumbnail that cannot be mapped ends it with the comment already shifted |
| ExifSegment.MakeExif | libcamera/ExynosJpegEncoderForCamera.cpp:383-714 | the APP1 segment of that document, its exact size, and the comment shifted; without an encoder failure and no change, without a mapping of the thumbnail failure and a shifted comment |
| ExifTags.TagsAscend | libcamera/ExynosJpegEncoderForCamera.cpp:409-683 | tags strictly ascend in each of the five directories, and no slot is left unwritten |
| ExifRoundTrip.DocumentReads | libcamera/ExynosJpegEncoderForCamera.cpp:383-700 | a reader that follows all pointers can read every document and finds these entries and the thumbnail bytes |
| ExifFidelity.TextIsLegible | libcamera/ExynosJpegEncoderForCamera.cpp:754-772 | which texts read as themselves when stored at an offset |
| ExifFidelity.RoundTrip | libcamera/ExynosJpegEncoderForCamera.cpp:383-700 | a reader finds under every tag of all five directories the type, the count and the numbers of the record, whatever the record; the bytes of maker, model and software come back if and only if they have more than three characters (or are the one character equal to their offset), those of the maker note if and only if there are more than four (or they equal their offset's) |
| ExifFidelity.LongTextsRoundTrip | libcamera/ExynosJpegEncoderForCamera.cpp:383-700 | in particular everything comes back with texts of four characters or more |
| ExifFidelity.TwoLetterMakerLost | libcamera/ExynosJpegEncoderForCamera.cpp:424-425 | the maker "LG" never survives |
| JpegEncoder.ChosenIsFirstFit | libcamera/ExynosJpegEncoderForCamera.cpp:1180-1206 | the retry ends at the first quality that fits or fails, or at the last |
| JpegEncoder.EncodeThumbnail | libcamera/ExynosJpegEncoderForCamera.cpp:1176-1210 | the loop returns that stream |
| JpegEncoder.RetryIsThreefold | libcamera/ExynosJpegEncoderForCamera.cpp:1176-1210 | the three qualities and the size from which the next one is used |
| JpegEncoder.SegmentFits | libcamera/ExynosJpegEncoderForCamera.cpp:317-343 | what `makeExif` writes, a thumbnail that is taken back included, fits the buffer `encode` allocates for it |
| JpegEncoder.ChooseThumb | libcamera/ExynosJpegEncoderForCamera.cpp:317-341 | thumbnail and buffer size; a record whose thumbnail failed or exceeds 64K says that it has none |
| JpegEncoder.Splice | libcamera/ExynosJpegEncoderForCamera.cpp:358-364 | the overlapping move and the copy leave SOI, segment and old rest |
| JpegEncoder.InsertExif | libcamera/ExynosJpegEncoderForCamera.cpp:312-374 | the stream is SOI, segment, old rest when the segment is at most 64K, else unchanged with its size; it fails exactly when there is a thumbnail that cannot be mapped |
| JpegEncoder.LookUpOutBuf | libcamera/ExynosJpegEncoderForCamera.cpp:276-310 | the look-up of the output buffer and its four errors |
| JpegEncoder.ErrorsAreTold | libcamera/ExynosJpegEncoderForCamera.cpp:257-310 | when `encode` gets to EXIF, and which failure each of its errors stands for |
| JpegEncoder.EncodePicture | libcamera/ExynosJpegEncoderForCamera.cpp:257-381 | the outcome of `encode`: every error in the order the code finds it, with the stream unchanged, or the stream with the segment in it; when the comment has been shifted |
| JpegReader.SpliceReads | libcamera/ExynosJpegEncoderForCamera.cpp:358-362 | removing the segment by its length field gives back picture and document if and only if the 16-bit length has not wrapped |
| JpegReader.InsertedReads | libcamera/ExynosJpegEncoderForCamera.cpp:358-362 | a segment that is inserted never has a wrapped length |
| JpegReader.Fates | libcamera/ExynosJpegEncoderForCamera.cpp:358-374 | for all sizes: thumbnail dropped, whole segment left out, or both inserted |
| JpegReader.LostLengths | libcamera/ExynosJpegEncoderForCamera.cpp:358-374 | the whole segment is left out for exactly ten lengths of the thumbnail |
| JpegReader.SegmentLost | libcamera/ExynosJpegEncoderForCamera.cpp:690-706 | and each record has such a length |
| JpegReader.SmallThumbnailKept | libcamera/ExynosJpegEncoderForCamera.cpp:1205-1206 | a thumbnail below 64K - 12288 is never dropped with the camera's maker note, and the rest stays below 12288 bytes |
| JpegReader.StreamRoundTrip | libcamera/ExynosJpegEncoderForCamera.cpp:257-381 | from the stream a reader gets the picture unchanged and finds under every tag what the record says, short texts exactly when the record is faithful |
| JpegReader.NextComment | libcamera/ExynosJpegEncoderForCamera.cpp:487-492 | the next picture from the same record has an empty comment |
| FlashSequencer.FlashActivity.constructor | libcamera/ExynosCameraActivityFlash.cpp:30-71 | the initial state |
| FlashSequencer.FlashActivity.SequenceOn | libcamera/ExynosCameraActivityFlash.cpp:186-303 | the sequence of request ON writes the next state and control block of the machine |
| FlashSequencer.FlashActivity.SequenceAuto | libcamera/ExynosCameraActivityFlash.cpp:337-454 | the second copy of the sequence, for AUTO, differs only in the exposure mode of the first frame |
| FlashSequencer.FlashActivity.OnBefore | libcamera/ExynosCameraActivityFlash.cpp:119-464 | `t_func3ABefore` is one step of the machine |
| FlashSequencer.FlashActivity.AfterPreFlash | libcamera/ExynosCameraActivityFlash.cpp:482-538 | the statuses of the pre-flash after a frame |
| FlashSequencer.FlashActivity.AfterMainFlash | libcamera/ExynosCameraActivityFlash.cpp:539-592 | the statuses of the main flash after a frame |
| FlashSequencer.FlashActivity.OnAfter | libcamera/ExynosCameraActivityFlash.cpp:466-605 | `t_func3AAfter` is one step of the machine |
| FlashSequencer.FlashActivity.SetFlashRequest | libcamera/ExynosCameraActivityFlash.cpp:652-668 | `setFlashReq` is one step |
| FlashSequencer.FlashActivity.SetFlashStep | libcamera/ExynosCameraActivityFlash.cpp:696-742 | `setFlashStep` is one step |
| FlashRuns.TimeoutBounded | libcamera/ExynosCameraActivityFlash.cpp:466-592 | the timeout counter stays in 0..61 in every run |
| FlashRuns.ReportMoves | libcamera/ExynosCameraActivityFlash.cpp:466-605 | which report, step or number of silent frames ends each state, and what else a processed frame changes |
| FlashRuns.ReportCounts | libcamera/ExynosCameraActivityFlash.cpp:482-592 | what it does to the counters |
| FlashRuns.StepPrepares | libcamera/ExynosCameraActivityFlash.cpp:696-742 | what each step prepares: its waits, its frame number, its flags |
| FlashRuns.RequestStartsOver | libcamera/ExynosCameraActivityFlash.cpp:652-668 | a new request starts over |
| FlashRuns.ErrorsNeverCount | libcamera/ExynosCameraActivityFlash.cpp:460-461 | the step error counter never counts in any run |
| FlashRuns.PreFlashEnds | libcamera/ExynosCameraActivityFlash.cpp:490-538 | from any pre-flash state MAIN_READY is reached within the frames the counters leave, whatever the firmware reports |
| FlashRuns.PreFlashWithin137 | libcamera/ExynosCameraActivityFlash.cpp:490-538 | from PRE_ON within 137 processed frames |
| FlashRuns.SilenceTakesAll | libcamera/ExynosCameraActivityFlash.cpp:490-538 | a silent firmware takes exactly that many |
| FlashRuns.MainFlashEnds | libcamera/ExynosCameraActivityFlash.cpp:558-580 | MAIN_ON reaches MAIN_DONE within 17 processed frames |
| FlashSafety.SequenceIsCanonical | libcamera/ExynosCameraActivityFlash.cpp:119-742 | in every run the states since OFF are the complete sequence in order if and only if no wait was given up out of turn, and then the main flash fires only after a fresh MAIN_START |
| FlashSafety.GivenUpSkipsPreFlash | libcamera/ExynosCameraActivityFlash.cpp:840-844 | a run in which a forced MAIN_READY lets the main flash fire without pre-flash |
| FlashSafety.AutoFollowsOn | libcamera/ExynosCameraActivityFlash.cpp:304-454 | in every run in which the stored exposure state stays FLASH_REQUIRED, whatever frames report during a capture, AUTO and ON stay in lockstep on states, counters and controls, exposure apart in the first frames |
| FlashSafety.CancelIsKept | libcamera/ExynosCameraActivityFlash.cpp:474-557 | no number of processed frames clears a cancel if and only if the trigger is not touch or the sequence cannot reach MAIN_READY |
| FlashSafety.CancelCompletes | libcamera/ExynosCameraActivityFlash.cpp:138-480 | after cancel and trigger off, the next frame carries the cancel with the flash dark, and then step and status are off |
| FlashSafety.CancelLost | libcamera/ExynosCameraActivityFlash.cpp:539-557 | the run that loses a cancel |
| FlashLight.FrameCarries | libcamera/ExynosCameraActivityFlash.cpp:119-464 | the light, exposure and white balance of a frame in every state, in the firmware's numbers |
| FlashLight.FrameMoves | libcamera/ExynosCameraActivityFlash.cpp:119-464 | where it leaves the sequence, and the need for flash |
| FlashLight.FrameCounts | libcamera/ExynosCameraActivityFlash.cpp:119-464 | the waits it leaves |
| FlashLight.MainWaitCountsDown | libcamera/ExynosCameraActivityFlash.cpp:274-290 | the wait for the main flash counts its frames |
| FlashLight.LampIsShown | libcamera/ExynosCameraActivityFlash.cpp:119-464 | over every run the control block shows the light of the last frame that was due one |
| FlashLight.LightIsRight | libcamera/ExynosCameraActivityFlash.cpp:186-454 | in every run in which no wait was given up out of turn: a frame in need carries the main flash if and only if it begins or continues it, and the torch if and only if it is in PRE_ON, PRE_AE_DONE or PRE_AF, or in MAIN_READY right behind a torch frame |
| FlashLight.TorchOutlives | libcamera/ExynosCameraActivityFlash.cpp:258-272 | a run from start-up in which the torch is still lit in MAIN_READY |
| FlashLight.BalanceIsLocked | libcamera/ExynosCameraActivityFlash.cpp:202-244 | over every run white balance is locked while the torch is lit, unless a frame has cancelled |
| FlashLight.CancelGivesModesBack | libcamera/ExynosCameraActivityFlash.cpp:138-157 | in every run a cancelling frame is dark and gives exposure and white balance back as set last |
| FocusSequencer.FocusActivity.constructor | libcamera/ExynosCameraActivityAutofocus.cpp:33-57 | the initial state |
| FocusSequencer.FocusActivity.GetCurrentState | libcamera/ExynosCameraActivityAutofocus.cpp:536-568 | the firmware's state, frozen while autofocus is stopped |
| FocusSequencer.FocusActivity.Trigger | libcamera/ExynosCameraActivityAutofocus.cpp:132-197 | the frame that starts a scan: mode, trigger and regions |
| FocusSequencer.FocusActivity.OnBefore | libcamera/ExynosCameraActivityAutofocus.cpp:92-240 | `t_func3ABefore` is one step of the machine |
| FocusSequencer.FocusActivity.OnAfter | libcamera/ExynosCameraActivityAutofocus.cpp:242-256 | `t_func3AAfter` is one step |
| FocusSequencer.FocusActivity.SetMode | libcamera/ExynosCameraActivityAutofocus.cpp:286-312 | `setAutofocusMode`, with its refusal |
| FocusRuns.TriggerIsAnEdge | libcamera/ExynosCameraActivityAutofocus.cpp:102-197 | in every run a frame raises the trigger only after a frame with mode OFF and trigger 0, exactly when it starts a scan in a known mode; the request count stays in 0..4 |
| FocusRuns.StartCarriesChoices | libcamera/ExynosCameraActivityAutofocus.cpp:132-197 | in every run the starting frame carries the firmware's number of the mode, the touch rectangle with its weight or the weight of the macro position, each as chosen last; an unknown mode stops autofocus |
| FocusRuns.RequestEnds | libcamera/ExynosCameraActivityAutofocus.cpp:109-131 | a request is taken up within five frames |
| FocusRuns.RequestWaits | libcamera/ExynosCameraActivityAutofocus.cpp:109-131 | four frames are not enough while the mode has not come back OFF |
| FocusRuns.RequestIsTakenUp | libcamera/ExynosCameraActivityAutofocus.cpp:109-131 | in every run a request is taken up exactly when the last processed mode is OFF or four frames have waited since the last start |
| FocusRuns.FailureIsDebounced | libcamera/ExynosCameraActivityAutofocus.cpp:198-229 | in every run, by the last reported state: an announced scan begins on passive or active scan, and a scan ends exactly on acquired focus, or on failed focus with seven counted frames, which in the announced modes are frames of that scan; while autofocus is not started neither happens |
| FocusRuns.StateIsTold | libcamera/ExynosCameraActivityAutofocus.cpp:536-568 | in every run the state told to others is the last reported one while started, the last told one while stopped |
| FocusRuns.InfinityInheritsCount | libcamera/ExynosCameraActivityAutofocus.cpp:176-229 | in infinity mode they need not be: a run from start-up in which the first failing frame ends a scan |
| BayerNode.VideoNode.QBuf | libcamera/ExynosCamera.cpp:1330-1385 | `cam_int_qbuf`: refused for a flagged index, else queued and flagged if the kernel accepts |
| BayerNode.VideoNode.DqBuf | libcamera/ExynosCamera.cpp:1586-1615 | `cam_int_dqbuf`: an erroneous buffer keeps its flag |
| BayerNode.VideoNode.Release | libcamera/ExynosCamera.cpp:1284-1328 | `cam_int_reqbufs`, `cam_int_clrbufs` and `cam_int_streamoff`: driver emptied, flags cleared |
| BayerNode.FlagsTrackDriver | libcamera/ExynosCamera.cpp:1284-1670 | in every run of a node that owns its queue all driver-owned indices are flagged and none is queued twice; flags and driver agree if and only if no erroneous buffer came back since the last reset |
| BayerNode.SpoiltIsLost | libcamera/ExynosCamera.cpp:1605-1610 | an erroneous buffer is lost until a reset |
| BayerQueue.SensorQueue.PutSensorBuf | libcamera/ExynosCamera.cpp:4210-4303 | `putSensorBuf` with its rotation past locked entries |
| BayerQueue.SensorQueue.SkipLocked | libcamera/ExynosCamera.cpp:4244-4263 | the rotation loop ends at the first unlocked entry, or after six |
| BayerQueue.SensorQueue.GetSensorBuf | libcamera/ExynosCamera.cpp:4077-4208 | `getSensorBuf`: state and index handed out |
| BayerQueue.SensorQueue.DrainSensor | libcamera/ExynosCamera.cpp:4110-4194 | its dequeue loop |
| BayerQueue.SensorQueue.InsertBuf | libcamera/ExynosCamera.cpp:4150-4172 | the reserve fills first, then the FIFO with locks |
| BayerQueue.SensorQueue.StartSensorOn | libcamera/ExynosCamera.cpp:3856-3978 | `startSensorOn`, with partial failure |
| BayerQueue.SensorQueue.StopSensorOff | libcamera/ExynosCamera.cpp:3980-4017 | `stopSensorOff`, with partial failure |
| BayerRuns.DrainKeeps | libcamera/ExynosCamera.cpp:4110-4194 | a drain moves the buffers it takes to the end of the FIFO in order, and loses one if and only if it ends at an erroneous one |
| BayerRuns.PutSucceeds | libcamera/ExynosCamera.cpp:4210-4303 | when a put reports success |
| BayerRuns.StartSucceeds | libcamera/ExynosCamera.cpp:3856-3978 | when a start does, and which buffers the sensor then has |
| BayerRuns.StopSucceeds | libcamera/ExynosCamera.cpp:3980-4017 | when a stop does, and what each of its failures leaves |
| BayerRuns.GetGives | libcamera/ExynosCamera.cpp:4110-4203 | which buffer a get hands out, by the first dequeue that is not a completed buffer |
| BayerRuns.PutTakesFirstUnlocked | libcamera/ExynosCamera.cpp:4231-4263 | the first unlocked entry in order goes to the driver, the FIFO becomes the entries behind it and the locked ones before it; a locked one goes only if all are locked |
| BayerRuns.StartKeeps | libcamera/ExynosCamera.cpp:3931-3970 | a start keeps every buffer in one place if and only if none it loads is still in the FIFO |
| BayerRuns.StartIsSafe | libcamera/ExynosCamera.cpp:3906-3970 | before the call: whatever the kernel answers, it does so if and only if the FIFO holds none of the first six, three or no buffers |
| BayerRuns.NoBufferTwice | libcamera/ExynosCamera.cpp:3856-4303 | over every run, whatever fails, each buffer is at all times in at most one place and once in the FIFO, if and only if no start loads a buffer that the FIFO still holds |
| BayerRuns.ProperStartsKeep | libcamera/ExynosCamera.cpp:3980-4017 | which holds, with an empty FIFO at every start, if each start comes before the first frame or after a stop without a failure |
| BayerRuns.FailedStopDoubles | libcamera/ExynosCameraHWImpl.cpp:3256-3268 | a run in which the stop fails, the sensor is started again, and a buffer is in both places |
| BayerRuns.AllBuffersStay | libcamera/ExynosCamera.cpp:4077-4303 | over every run of gets and puts, nothing appears twice or from nowhere, and a buffer is lost if and only if a dequeue brings back an erroneous one or the kernel refuses one |
| BayerRuns.FreshStartOwns | libcamera/ExynosCamera.cpp:3906-3970 | a fresh start owns all six, a back-camera recording three, a scalable sensor none |
| BayerRuns.SixStay | libcamera/ExynosCamera.cpp:3856-4303 | started with all six, and while that does not happen, each of the six is in exactly one place |
| BayerRuns.FrontGetAddsOne | libcamera/ExynosCamera.cpp:4108-4208 | a front-camera get that succeeds adds one to the FIFO however many it drains; one that fails, or while inserted buffers are held back, adds all it took |
| BayerRuns.FrontBufferStays | libcamera/ExynosCamera.cpp:4174-4203 | when the buffer handed out is still in the FIFO, exactly |
| BayerRuns.ReserveFills | libcamera/ExynosCamera.cpp:4150-4170 | n back-camera get and put pairs leave min(n, 2) in the FIFO |
| BayerLocks.ReserveIsKnown | libcamera/ExynosCamera.cpp:4150-4163 | over every run the back camera's first two buffers since a stop fill the reserve, and nothing is handed out while the last one taken belongs to it |
| BayerLocks.LocksAreKnown | libcamera/ExynosCamera.cpp:4150-4172 | over every run a buffer is locked if and only if the back camera took it for a capture beyond the reserve, or a call locked it, and it has not been unlocked since |
| BayerLocks.LockedStays | libcamera/ExynosCamera.cpp:4231-4263 | a locked buffer stays in the FIFO and out of the driver over all gets and puts, as long as each put finds an unlocked one |
| BayerLocks.CaptureIsKept | libcamera/ExynosCamera.cpp:4158-4163 | so does the frame taken for a capture, from that get on |
| Crop.GetCropRectAlign | libcamera/ExynosCamera.cpp:10232-10309 | the window, or refusal of a zero size |
| Crop.KeepsAspect | libcamera/ExynosCamera.cpp:10248-10269 | before zoom the window spans the source in one direction and is the largest with the output's aspect ratio in the other |
| Crop.ZoomDivides | libcamera/ExynosCamera.cpp:10271-10276 | zoom divides a size by 1 + zoom/10 and drops the fraction |
| Crop.FittedIsMin | libcamera/ExynosCamera.cpp:10248-10269 | the window before zoom in whole numbers: the smaller of the source and the other side times the ratio |
| Crop.AlignedIsNearest | libcamera/ExynosCamera.cpp:10278-10297 | no multiple of the alignment within the source is nearer to the size than the one chosen, and of two equally near the larger is chosen |
| Crop.FitsInside | libcamera/ExynosCamera.cpp:10278-10309 | the window is aligned, inside the source and centred to within a pixel |
| Crop.ZoomNests | libcamera/ExynosCamera.cpp:10271-10300 | a larger zoom gives a window inside that of a smaller one |
| Crop.SetZoom | libcamera/ExynosCamera.cpp:8317-8358 | the crop region installed, or nothing |
| Crop.RegionInside | libcamera/ExynosCamera.cpp:8344-8355 | the even corner keeps the region inside the source |
| Crop.RegionCentred | libcamera/ExynosCamera.cpp:8344-8355 | the installed region is centred up to two pixels |
| Crop.RegionSize | libcamera/ExynosCamera.cpp:10248-10297 | its width and height are the multiples of 16 and 2 within the source that are nearest to the source cut to the output's ratio and divided by the zoom |
| Crop.RegionsNest | libcamera/ExynosCamera.cpp:8344-8355 | and nested |
| Crop.RegionNotEmpty | libcamera/ExynosCamera.cpp:8317-8358 | the sizes and zooms that leave a region, exactly |
| FocusArea.AreaToHardware | libcamera/ExynosCamera.cpp:10533-10579 | the clamping steps give the mapped rectangle |
| FocusArea.AreaInsideCrop | libcamera/ExynosCamera.cpp:10542-10578 | for any integers the result is ordered and inside the crop region if and only if that is not empty |
| FocusArea.AreaInsideSource | libcamera/ExynosCamera.cpp:8317-8358 | from sizes and zoom: the result is ordered and inside the installed region if and only if half a block remains after the zoom and a block fits the source, and then it is inside the source image |
| FocusArea.WholeAreaIsCrop | libcamera/ExynosCamera.cpp:10542-10578 | the whole Android area maps to the whole crop region, its centre to the middle |
| FocusArea.AreaIsProportional | libcamera/ExynosCamera.cpp:10542-10571 | Android's coordinates fall in proportion on the region, rounded down |
| FocusArea.OverflowTurnsBack | libcamera/ExynosCamera.cpp:10542-10545 | a product that overflows maps a far right edge to the left end |
| FocusArea.ContainmentKept | libcamera/ExynosCamera.cpp:10542-10571 | containment of rectangles is kept while no product overflows |
| FocusArea.AndroidInRange | libcamera/ExynosCamera.cpp:10542-10545 | Android's coordinates do not overflow |
| GrallocModel.ChromaAgrees | gralloc/gralloc.cpp:291-338 | the length the mapper computes is the length that was allocated, for every format and size |
| GrallocModel.LayoutHolds | gralloc/gralloc.cpp:217-338 | for every size: strides are the least multiples of the format's alignments, the planes are as many as the format has, and each has room for its samples |
| GrallocHandle.AllocYuv | gralloc/gralloc.cpp:267-368 | the planes are allocated in order; a refused one leaves no descriptor open |
| GrallocHandle.MapBuffer | gralloc/mapper.cpp:41-90 | every plane is mapped with its length; a refused first plane changes nothing, a refused chroma plane keeps the address of the failure and is not reported |
| GrallocHandle.MapChroma | gralloc/mapper.cpp:49-65 | the first switch computes the chroma length |
| GrallocHandle.UnmapChroma | gralloc/mapper.cpp:99-115 | so does the second |
| GrallocHandle.UnmapBuffer | gralloc/mapper.cpp:92-147 | every plane is unmapped with the length it was mapped with, a failed one is forgotten |
| GrallocHandle.LockBuffer | gralloc/mapper.cpp:213-240 | a buffer is mapped once, and the caller gets the address of each plane, with success in any case |
| GrallocHandle.FreeBuffer | gralloc/gralloc.cpp:416-436 | every descriptor is closed once, and what is left is what others own |
| GrallocRuns.AllocHolds | gralloc/gralloc.cpp:340-367 | an allocation owns one descriptor per plane or changes nothing |
| GrallocRuns.LockAddresses | gralloc/mapper.cpp:67-90 | a lock gives each granted plane a new mapping of its whole length and each refused one the address of the failure, which no later lock replaces |
| GrallocRuns.LifeConserves | gralloc/mapper.cpp:191-240 | over any locks and unregistrations, whichever planes the kernel refuses, and whatever other buffers do meanwhile, a freed buffer leaves exactly the others' descriptors and mappings |

## Left out

- Crop.GetCropRectAlign: `float` is `real` with the same truncations, so a size next to a whole number may differ by a pixel from what `float` rounding gives; negative sizes, which only a zero test keeps out, are not modelled.
- Crop.KeepsAspect: over exact reals; the ratio and the product are rounded to `float` in the code.
- Crop.ZoomDivides: over exact reals; the zoom level and the quotient are rounded to `float` in the code.
- Alignments are powers of two in the source's masks; `Crop.Aligned` uses the remainder, and `GetCropRectAlign` asks for powers of two.
- mmap, ion, csc and v4l2 calls: their answers are parameters.
- JpegEncoder.EncodePicture: a DMA buffer of size zero, which `mmapJpegMemory` passes as mapped at the failure address, and a JPEG of one byte, for which the size of the move wraps, are not modelled.
- JpegEncoder.LookUpOutBuf: the mapping of the output buffer is an answer of the kernel; that it is unmapped afterwards is not modelled.
- The hardware JPEG encoder: main picture and thumbnails are byte sequences.
- The set-up part of `encodeThumbnail` before its retry loop, and the colour conversion.
- EXIF meanings: GPS degrees, APEX values, character codes and the choice of SHORT or LONG per tag; only what the bytes carry is claimed.
- TIFF word alignment of value offsets: the code does not pad.
- ExifRoundTrip.DocumentReads: asks for a document below 4 GB, since the source's offsets are 32-bit.
- The order of single writes across directories is that of the source except that each run of entries is a method of its own.
- Waits, sleeps and unsynchronised reads of the flash and autofocus fields by other threads; a wait that is given up is one event.
- `m_checkMainCaptureFcount` and `m_checkMainCaptureRcount`, which are never set, and the fields used only for logging.
- `setFlashMode` of the flash activity, which nothing calls; the remaining one-line setters are transitions of `FlashModel.Next` without a method.
- `lockAutofocus` and `getAutofocusResult`: polling; a lock begins with `stopAutofocus`.
- Races between an ioctl and its `flagQ`: each `cam_int_` call is one step, and waiting for a flag is its timeout.
- The two `flagStart` fields of the back camera are one here, and `cam_int_qbuf` and `cam_int_dqbuf` on nodes that share a descriptor act on one node.
- `getFixedSensorBuf`, `putFixedSensorBuf` and `setScalableSensorSize`: outside the FIFO protocol.
- `m_captureBayerQ`, frame counters and metadata copies in the bayer path.
- FocusArea.AreaToHardware: adding the crop corner is not wrapped, since a corner inside the source cannot overflow.
- RGB and BLOB buffers of gralloc, which have one plane, and the ion handles of `gralloc_register_buffer`.
- Byte counts in gralloc are unbounded integers.
- Parameter setters, scene modes, sensor tables, the HAL interface, display and video modules.
