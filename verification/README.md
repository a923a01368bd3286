# A verified model of the Nexell Android HAL

Dafny models of the parts of the HAL that compute or keep state: the Exif/TIFF writer, mixer
routing and device selection, the capture path with its volume ramp, the custody of camera buffers,
the input-event ring and the acceleration sensor on top of it, the precapture protocol, the display
buffer rings, digital zoom, the layout of YUV planes and the colour conversion loops. Code that works
in place is modelled in place, as methods over arrays and class fields; each method is proved against
a function of its inputs or of the old state, and the main results are lemmas about those functions.

`dafny verify dfyconfig.toml` checks everything.

## Files

| file | what it models |
|---|---|
| `Option.dfy` | the option type |
| `Bytes.dfy`, `TiffDirectory.dfy` | little-endian bytes, C strings, memcpy; the layout of a directory (section 2 of TIFF 6.0) |
| `TiffReader.dfy` | an independent reader of that format, and the proof that it reads back any laid-out directory |
| `ExifFormat.dfy`, `ExifRoundTrip.dfy` | the attribute record, the fields of the four directories, their places; the whole structure and when a reader recovers it |
| `ExifDecoder.dfy` | a decoder by literal tags, and the proof that it gets the record's values from a picture |
| `ExifWriter.dfy`, `NXExifProcessor.dfy` | the `writeExifIfd` overloads and `processExif` over the output buffer |
| `MixerOverlay.dfy`, `AudioRoute.dfy`, `AudioDevice.dfy` | paths of settings, the mixer cache, the choice of a route and its short-circuit |
| `AudioCapture.dfy`, `VolumeRamp.dfy` | period blocks cut into requests; the 16-bit ramp |
| `CameraStream.dfy`, `StreamThreads.dfy` | `NXQueue`, `NXStream`, the preview and record loops |
| `InputEvents.dfy`, `AccelerationSensor.dfy` | the circular reader, the event assembler |
| `SensorMessages.dfy` | the message thread and the precapture protocol |
| `DisplayRing.dfy` | the index rings of the two output renderers |
| `PlaneLayout.dfy`, `ScalerCrop.dfy` | plane sizes and offsets; crop scaling and source addresses |
| `ColorConvert.dfy`, `NxCsc.dfy`, `ArgbConvert.dfy` | the conversion loops, and the conversion between two allocated handles |

## The environment

The hardware and the framework are small classes with nondeterministic results, and inputs are taken
to be in range. Nothing is assumed but what is listed here.

- `StreamThreads.Driver`, `DisplayRing.OutputDriver`: a V4L2 queue returns buffers in the order they
  were queued; every call may fail, and a call that does not return a negative number has succeeded.
  `OutputDriver` records a misuse when an index is queued while the driver holds it, or a buffer is
  awaited when it holds none. Both count the calls that `failed`.
- `CameraStream.StreamOps`: the framework hands over any registered buffer it owns, or none; enqueueing
  may fail and then leaves the buffer with the HAL; cancelling always returns the buffer. It counts the
  buffers it `refused`, and the times it `withheld` one though it owned some. `StreamThread.exits` counts the
  exit checks that fired.
- `AudioRouting.Mixer`: a control holds what was last stored in it. Every control is boolean, integer
  or enumerated and has at least one value, enumerated ones exactly one (`alloc_mixer_state` leaves
  the arrays of other types unset).
- `AudioCapture.StreamIn`: the outcomes of the reads to come are any sequence of blocks of one period
  and failures, which leave any samples in the buffer; after the last of them the device is gone.
- Strings of the attribute record end within their arrays, and the user comment leaves room for its
  eight-byte code. The memory of a destination handle has at least the size of the output buffer that
  would otherwise be allocated.
- A value index of a mixer setting is at least -1. The memory that `malloc` returns is arbitrary and is
  a parameter (`memory`).
- The handles of `nxCsc` were allocated for exactly the width and height it is called with, and both
  pictures of a conversion lie in different buffers.
- Sizes, offsets and counters are unbounded integers and are taken to be in the range of their C
  types; where the code relies on a width (16-bit samples, volume and APP1 length, the 32-bit product
  of the ramp's length, bytes) the width is explicit.

## What the proofs show about the code

The properties hold as one would expect except in these places, each of them stated exactly.

- **Short strings.** The writer stores strings of fewer than four characters out of line, which section
  2 of TIFF 6.0 does not allow; a reader then takes the offset's own bytes for the text. A reader
  recovers every value that the writer hands to a directory if and only if maker, model and software
  have at least four characters each, or one character that happens to be the offset
  (`ExifRoundTrip.ReadTiffMeaning`; `ShortMakerIsLost` is a record that is not recovered).
- **User comment.** What the writer hands over is not the comment of the record: the character code
  put in front begins with a NUL, so `strlen` is 0 and nine bytes are stored, the code and the comment's
  first byte. They are the code and the comment if and only if the comment is empty
  (`ExifFormat.CommentIsCut`); of the default comment one letter is left (`DefaultCommentIsCut`).
- **APP1 length.** It is right if and only if the TIFF structure has at most 65527 bytes; the writer
  allows 65536 (`App1LengthIsExact`; `LongThumbnailOverflows` and `OverflowExample` reach 65528, whose
  length is stored as 0). `OutSize` counts an SOI that is only written for a destination
  handle (`OutSizeIsExact`).
- **Stale route.** With no active output, plugging or unplugging a headset does not change the route id.
  The route in place is not the one asked for if and only if the source is the microphone, voice
  recognition or voice communication and the headset's presence differs from when the id last changed
  (`AudioDeviceRoutes.RouteIsCurrent`, `StaleHeadsetRoute`, `StaleHeadsetHardware`, and `StaleHeadsetRun` from
  an empty table to the hardware).
- **Failing reads.** `pcm_read_frames` fails if and only if more frames are asked for than can be had: those
  pending and, with an open device, those of the blocks it still delivers before it fails. It then loses
  all of those without telling its caller (`StreamIn.PcmReadFrames`, `Available`; `OneGoodBlockThenFailure`
  is a case that loses a frame). `in_read`, the only caller, comes here with a closed device or with a
  resampler, and otherwise reads the device itself: without a resampler it loses no frame here, because a
  closed device has none pending.
- **Ramp length.** The ramp's length divides, and it is zero if and only if the 32-bit product of rate and
  duration is below 1000: below 10 Hz, and just past a wrap-around (`RampLengthIsPositive`).
- **Stopped streams.** When a thread loop ends, the HAL and the driver hold the same buffers but for at
  most one: the frame just filled, when the exit is requested before it is returned, or the new buffer,
  when the driver does not take it (`StreamThreads.Exit`, `HeldAt`).
- **Display rings.** The next index is taken if and only if the whole ring is outstanding
  (`NextIndexIsFree`), and the renderer never queues a taken index if and only if the ring has at least
  two buffers (`RingNeedsTwo`). A failing stream start leaves the driver one buffer ahead of the count,
  and the next frame then goes under a taken index (`HWCCommonRenderer.Render`). The mirror's `stop`
  keeps its counters, which are then wrong if and only if a buffer was outstanding
  (`MirrorStopBreaksSync`, `MirrorAfterRestart`). Even so, without a failed wait the mirror never queues a
  taken index, however often it is stopped and started (`NoFailureNoMisuse`). Once its counter is up it
  does so if and only if the waits that failed since the last stop make up the whole ring, counting the
  buffers outstanding before if there was no stop (`MisuseAfterFailures`; `FailedWaitFillsTheRing` is a
  case). A failed stream start leaves it, too, one buffer ahead (`HDMIMirrorRenderer.Render`).
- **Crossed triggers.** A metering's end carries its own trigger's id if and only if, as the message for
  the end is posted, no trigger is queued or the first one queued has the same id
  (`SensorMessages.EndHasOwnId`); `TriggersGetCrossed` is a run in which it does not. The alternation
  and the counts hold in any case.
- **Crop width.** For a buffer width that is not a multiple of 32 the source width becomes negative if
  and only if the scaled left edge lies beyond the last multiple of 32 (`CropWidthIsNegative`).
- **nxCsc.** It steps through both buffers with the width, and stays inside them for every size. The
  destination shows the source's picture, whatever both held, if and only if the width is a multiple of
  32 or there is one row at most (`NxCsc.PictureSurvives`); at 176x144 it does not (`QcifIsLost`).

## Model

| member | source | states |
|---|---|---|
| Bytes.Le16RoundTrip | camera/NXExifProcessor.h:117-118 | two stored bytes read back as the number for all 16-bit numbers |
| Bytes.Le32RoundTrip | camera/NXExifProcessor.h:121-124 | four stored bytes read back as the number for all 32-bit numbers |
| Bytes.StrLen | camera/NXExifProcessor.cpp:265-268 | the bytes before the first NUL, none of them NUL |
| Bytes.MemCpy | camera/NXExifProcessor.h:144-155 | the range holds the bytes and nothing else in the buffer changes |
| TiffDirectory.EntryPosition | camera/NXExifProcessor.h:144-155 | entry i is at 12i and its value where its offset says, whatever the other entries are |
| TiffDirectory.DirectoryParts | camera/NXExifProcessor.cpp:252-277 | count, entries, link and values lie end to end in a directory |
| TiffReader.ReadEntryBack | camera/NXExifProcessor.h:144-155 | a reader gets tag, type, count and value of an entry stored anywhere, in line or out of line |
| TiffReader.ReadEntriesBack | camera/NXExifProcessor.h:116-168 | the same for all entries of a directory, in order |
| TiffReader.ReadDirectoryBack | camera/NXExifProcessor.cpp:252-277 | a reader recovers the records and the link of any stored directory |
| TiffReader.FindField | camera/NXExifProcessor.cpp:271-275 | the record found for a tag is that of the first field with it |
| TiffReader.FindNoField | camera/NXExifProcessor.cpp:272-275 | a tag that no field has is not found |
| TiffReader.FollowField | camera/NXExifProcessor.cpp:271 | following a pointer field leads to the directory stored at its target |
| ExifFormat.StoredComment | camera/NXExifProcessor.cpp:305-309 | the stored user comment has nine bytes |
| ExifFormat.CommentIsCut | camera/NXExifProcessor.cpp:305-309 | the stored bytes are the code and the comment if and only if the comment is empty |
| ExifFormat.DefaultCommentIsCut | camera/Exif.h:322 | of the default comment one letter is stored |
| ExifFormat.StoredMethod | camera/NXExifProcessor.cpp:346-355 | the stored processing method has the prefix's eight and at most a hundred more bytes |
| ExifFormat.Ifd0Fields | camera/NXExifProcessor.cpp:263-275 | as many fields as the 0th directory's count says, with and without GPS; what each tag holds is `ExifDecoder.ZerothFound` |
| ExifFormat.ExifFields | camera/NXExifProcessor.cpp:288-316 | 22 fields, as the Exif directory's count says |
| ExifFormat.GpsFields | camera/NXExifProcessor.cpp:336-357 | as many fields as the GPS directory's count says, with and without a processing method |
| ExifFormat.Ifd1Fields | camera/NXExifProcessor.cpp:377-385 | nine fields, as the 1st directory's count says |
| ExifFormat.Ifd0End | camera/NXExifProcessor.cpp:261-279 | the 0th directory's values end where the Exif pointer points |
| ExifFormat.ExifMorePayloads | camera/NXExifProcessor.cpp:288-309 | eight rationals, two dates and the comment are all that the first sixteen Exif fields store out of line |
| ExifFormat.ExifEnd | camera/NXExifProcessor.cpp:286-320 | the Exif directory's values end where the GPS pointer points |
| ExifFormat.GpsEnd | camera/NXExifProcessor.cpp:322-361 | the GPS directory's values end where the link to the 1st directory points |
| ExifFormat.Ifd1End | camera/NXExifProcessor.cpp:365-391 | the 1st directory's values end where the thumbnail starts |
| ExifRoundTrip.TiffImageSize | camera/NXExifProcessor.cpp:252-401 | the parts, which lie end to end, add up to the size the writer counts, dropped thumbnail or not |
| ExifRoundTrip.TiffImageParts | camera/NXExifProcessor.cpp:252-401 | header, directories and thumbnail are at the offsets the pointers give and do not overlap |
| ExifRoundTrip.PartsMakeImage | camera/NXExifProcessor.cpp:252-401 | bytes with every part in its place are exactly that structure |
| ExifRoundTrip.ReadThumbnailBack | camera/NXExifProcessor.cpp:384-391 | a reader finds the thumbnail's bytes through the 1st directory |
| ExifRoundTrip.ReadTiffBack | camera/NXExifProcessor.cpp:252-401 | for every record and thumbnail a reader that follows the pointers gets every directory, record and the thumbnail, or no 1st directory when it was dropped |
| ExifRoundTrip.TextRecovered | camera/NXExifProcessor.h:144-155 | a string is read back if and only if it is recoverable |
| ExifRoundTrip.DirectoryRecovered | camera/NXExifProcessor.h:116-168 | fields stored by the rule of section 2 of TIFF 6.0 are all read back |
| ExifRoundTrip.LaterDirectoriesRecovered | camera/NXExifProcessor.cpp:279-391 | Exif, GPS and 1st directory are read back as meant, for every record |
| ExifRoundTrip.Ifd0Recovered | camera/NXExifProcessor.cpp:263-275 | the 0th directory is read back as meant if and only if its three strings are recoverable |
| ExifRoundTrip.ReadTiffMeaning | camera/NXExifProcessor.cpp:252-401 | every value handed to the directories is read back if and only if the three strings are recoverable |
| ExifRoundTrip.ShortMakerIsLost | camera/NXExifProcessor.cpp:265 | a record with the maker "LG", which a reader does not recover, whatever the thumbnail |
| ExifRoundTrip.ReadTiffInBuffer | camera/NXExifProcessor.cpp:226-417 | the same for a structure inside the output buffer |
| ExifDecoder.TextFound | camera/NXExifProcessor.h:144-155 | looking a text up by its tag gives it whole if and only if it is recoverable |
| ExifDecoder.ZerothFound | camera/NXExifProcessor.cpp:263-275 | a decoder that goes by literal tags finds width under 0x0100, height under 0x0101, orientation, date and positioning, and, if recoverable, maker, model and software |
| ExifDecoder.ExifFound | camera/NXExifProcessor.cpp:288-316 | it finds every exposure value, date, size and mode of the record under its own tag and type, and the comment as stored |
| ExifDecoder.GpsFound | camera/NXExifProcessor.cpp:336-357 | it finds latitude, longitude, altitude, their references, time and date, and the processing method behind its prefix, or none |
| ExifDecoder.FirstFound | camera/NXExifProcessor.cpp:377-385 | it finds the thumbnail's sizes, scheme, resolutions, place and length |
| ExifDecoder.PictureTells | camera/NXExifProcessor.cpp:252-401 | for every record and thumbnail, decoding what a reader gets from the structure gives the record's values in all four directories and the thumbnail, which is there unless it is off, empty or pushes the structure past 65536 bytes |
| ExifDecoder.ReadSegment | camera/NXExifProcessor.cpp:403-410 | a reader of the whole APP1 segment that goes by a right length finds the same |
| ExifWriter.AdvanceInline | camera/NXExifProcessor.h:116-142 | storing an in-line entry keeps all entries, values and bytes before the directory |
| ExifWriter.AdvanceOutOfLine | camera/NXExifProcessor.h:144-168 | storing an entry and its value keeps all earlier ones; the cursors never meet |
| ExifWriter.WriteEntry | camera/NXExifProcessor.h:116-125 | twelve bytes are the entry and nothing else changes |
| ExifWriter.WriteValue | camera/NXExifProcessor.h:116-125 | one more entry of the directory is in place and the entry cursor moves by twelve |
| ExifWriter.WriteInline | camera/NXExifProcessor.h:127-142 | the same for up to four bytes, zero-padded; nothing at all happens for more |
| ExifWriter.WriteBytes | camera/NXExifProcessor.h:144-155 | one more entry and its value are in place; the data cursor moves by the value's size |
| ExifWriter.WriteRationals | camera/NXExifProcessor.h:157-168 | the same for rationals of eight bytes each |
| ExifWriter.OpenDirectory | camera/NXExifProcessor.cpp:252-261 | the count is stored and the data cursor starts past entries and link |
| ExifWriter.WriteLink | camera/NXExifProcessor.cpp:318-320 | with its link the finished directory is in place |
| ExifWriter.DirectoryDone | camera/NXExifProcessor.cpp:318-320 | all entries, all values and a link make the directory |
| ExifProcessor.NXExifProcessor.AllocOutBuffer | camera/NXExifProcessor.cpp:199-217 | a zeroed buffer of the size for everything but the thumbnail, plus the thumbnail's |
| ExifProcessor.NXExifProcessor.WriteHeaders | camera/NXExifProcessor.cpp:231-250 | SOI for a handle, Exif and TIFF header at their places |
| ExifProcessor.NXExifProcessor.WriteZerothIfd | camera/NXExifProcessor.cpp:252-277 | nine entries are in place, with room for the GPS pointer, and the data cursor is at the Exif directory |
| ExifProcessor.NXExifProcessor.WriteExifIfd | camera/NXExifProcessor.cpp:279-320 | the Exif directory is in place, nothing before it changes, and the comment has moved |
| ExifProcessor.NXExifProcessor.MoveComment | camera/NXExifProcessor.cpp:305-306 | the comment is shifted behind its code; its C length is then 0 and the stored part is the code and one byte |
| ExifProcessor.NXExifProcessor.WriteGpsIfd | camera/NXExifProcessor.cpp:325-360 | the GPS directory is in place, with or without a processing method, and nothing before it changes |
| ExifProcessor.NXExifProcessor.WriteGps | camera/NXExifProcessor.cpp:322-361 | the GPS pointer is patched to the directory's place; all three directories are then in place |
| ExifProcessor.NXExifProcessor.WriteFirstIfd | camera/NXExifProcessor.cpp:365-392 | the 1st directory and the thumbnail are in place and nothing before them changes |
| ExifProcessor.NXExifProcessor.WriteMainIfds | camera/NXExifProcessor.cpp:252-361 | 0th, Exif and GPS directory are in place; the data cursor is behind them |
| ExifProcessor.NXExifProcessor.WriteThumbnail | camera/NXExifProcessor.cpp:363-401 | the link is patched, or reset if the structure would exceed 64 KB, and the structure's size is that of what it links to |
| ExifProcessor.PatchLink | camera/NXExifProcessor.cpp:366-367 | only the link's four bytes change |
| ExifProcessor.NXExifProcessor.ProcessExif | camera/NXExifProcessor.cpp:226-417 | for every record and thumbnail the buffer holds exactly the structure, the segment's header and length, within the allocated size; up to 65527 bytes a decoder of the segment gets the record's values and the thumbnail |
| ExifProcessor.NXExifProcessor.WriteApp1 | camera/NXExifProcessor.cpp:403-413 | marker, length and size are in place, and a decoder of the segment gets the record back if the length is right |
| ExifProcessor.App1LengthIsExact | camera/NXExifProcessor.cpp:403-410 | the big-endian length counts the bytes after SOI and marker if and only if the structure has at most 65527 |
| ExifProcessor.SegmentTells | camera/NXExifProcessor.cpp:403-410 | up to 65527 bytes a reader that goes by the stored length finds what the record and the thumbnail hold |
| ExifProcessor.LongThumbnailOverflows | camera/NXExifProcessor.cpp:391-410 | every record has a size of thumbnail that is kept, reaches 65528 and gets the length 0 |
| ExifProcessor.OverflowExample | camera/NXExifProcessor.cpp:391-410 | a record and a thumbnail for which that happens |
| ExifProcessor.OutSizeIsExact | camera/NXExifProcessor.cpp:412-413 | the reported size is that of what was written if and only if there is a destination handle |
| MixerOverlay.OverlayListed | audio/audio_route.c:297-311 | applying a path gives a listed control its setting's values |
| MixerOverlay.OverlayUnlisted | audio/audio_route.c:297-311 | and leaves every other control alone |
| MixerOverlay.OverlayAnyOrder | audio/audio_route.c:297-311 | the order of a path's settings does not matter |
| MixerOverlay.RestoreAt | audio/audio_route.c:313-329 | resetting a path restores exactly the listed controls |
| MixerOverlay.ApplyThenReset | audio/audio_route.c:297-329 | from the reset state, applying a path and resetting it changes nothing |
| MixerOverlay.DifferingExactly | audio/audio_route.c:528-543 | the controls written are those whose values differ, all of them |
| MixerOverlay.DifferingAscends | audio/audio_route.c:517-544 | each of them is written once, in order |
| MixerOverlay.NothingDiffers | audio/audio_route.c:528-543 | equal values leave nothing to write |
| AudioRouting.Taken | audio/audio_route.c:285-295 | the settings taken over are those before the first whose control is already set |
| AudioRouting.MixerPath.FindCtlIndexInPath | audio/audio_route.c:174-184 | the index of the control's setting, or -1 if and only if it has none |
| AudioRouting.MixerPath.AllocPathSetting | audio/audio_route.c:186-212 | one more setting fits, the capacity is doubled when needed and earlier settings are kept |
| AudioRouting.MixerPath.AddSetting | audio/audio_route.c:214-239 | appended if and only if the control is not set yet; the path stays sound |
| AudioRouting.MixerPath.SetValues | audio/audio_route.c:273-280 | one value or all values of one setting change |
| AudioRouting.MixerPath.AddValue | audio/audio_route.c:241-283 | an out-of-range index is refused without a change; otherwise exactly the elements that the index names get the value, in a new or existing setting, the others of a new one but the first being whatever memory held |
| AudioRouting.ValueIsAdded | audio/audio_route.c:258-280 | element by element: a listed control keeps its place and its other elements, a new one comes last with the value at element 0 and at the index and what memory held elsewhere; -1 sets all |
| AudioRouting.MixerPath.AddPath | audio/audio_route.c:285-295 | settings are taken over up to the first conflict, also when a path is added to itself |
| AudioRouting.OpKeepsPath | audio/audio_route.c:214-295 | each call keeps the controls distinct and the values fitting |
| AudioRouting.BuiltPathIsSound | audio/audio_route.c:214-295 | so does every sequence of calls |
| AudioRouting.LookupUnique | audio/audio_route.c:126-136 | with unique names a lookup finds the path that has the name |
| AudioRouting.AudioRoute.constructor | audio/audio_route.c:454-493 | the cache starts as a copy of the hardware |
| AudioRouting.AudioRoute.PathGetByName | audio/audio_route.c:126-136 | the path of that name, or null if and only if there is none |
| AudioRouting.AudioRoute.Append | audio/audio_route.c:145-171 | the path is the table's last, with no settings; the capacity is doubled when needed |
| AudioRouting.AudioRoute.PathCreate | audio/audio_route.c:138-172 | a fresh empty path, the table's last, or null and no change if and only if the name is taken; names stay unique |
| AudioRouting.AudioRoute.PathGrown | audio/audio_route.c:186-283 | a path that grew, in place or into a fresh array, leaves the table sound and its other paths as they were |
| AudioRouting.AudioRoute.AddValueTo | audio/audio_route.c:241-283 | a value given to a path of the table changes that path's settings and no other's |
| AudioRouting.AudioRoute.AddSettingTo | audio/audio_route.c:214-239 | so does a setting |
| AudioRouting.AudioRoute.AddPathTo | audio/audio_route.c:380-384 | so does a nested path, up to the first control already set |
| AudioRouting.AudioRoute.FinishInit | audio/audio_route.c:717-720 | the initial values are in the hardware and are what a reset goes back to |
| AudioRouting.AudioRoute.Reset | audio/audio_route.c:561-570 | all new values are the saved ones |
| AudioRouting.AudioRoute.SaveMixerState | audio/audio_route.c:550-558 | the new values are what a reset goes back to |
| AudioRouting.AudioRoute.SetControl | audio/audio_route.c:414-430 | without an id all values change, with an id in range that one, and with any other id, negative ones included, none |
| AudioRouting.AudioRoute.PathApply | audio/audio_route.c:297-311 | the new values are the old ones overlaid by the path |
| AudioRouting.AudioRoute.PathReset | audio/audio_route.c:313-329 | the new values are the old ones with the path's controls restored |
| AudioRouting.AudioRoute.ApplyPath | audio/audio_route.c:573-591 | the same by name; -1 and no change if and only if there is no such path |
| AudioRouting.AudioRoute.ResetPath | audio/audio_route.c:594-612 | restored by name; -1 and no change if and only if there is no such path |
| AudioRouting.AudioRoute.HasChanged | audio/audio_route.c:529-534 | true if and only if some value of the control differs |
| AudioRouting.AudioRoute.WriteControl | audio/audio_route.c:535-542 | hardware and cache get the control's new values, in one write |
| AudioRouting.AudioRoute.UpdateControl | audio/audio_route.c:528-543 | a control is written if and only if it differs; cache and hardware agree either way |
| AudioRouting.AudioRoute.UpdateMixer | audio/audio_route.c:510-547 | hardware, old and new values are equal at the end and exactly the differing controls were written |
| AudioRouting.AudioRoute.UpdateMixerTwice | audio/audio_route.c:510-547 | a second update writes nothing |
| AudioDeviceRoutes.OutputDeviceId | audio/audio_hw.c:342-370 | a row of the route table or none |
| AudioDeviceRoutes.InputSourceId | audio/audio_hw.c:372-388 | a line of the route table or none |
| AudioDeviceRoutes.RouteIdInjective | audio/audio_hw.c:502 | a route id determines output and source and is never the initial 0 |
| AudioDeviceRoutes.MicNames | audio/audio_hw.c:395-481 | headset and own microphone have different paths for every source but the camcorder |
| AudioDeviceRoutes.OutputRows | audio/audio_hw.c:342-370 | which sets of devices are which output, and which are none |
| AudioDeviceRoutes.SourceRows | audio/audio_hw.c:372-388 | which sources are which line of the table, and which are none |
| AudioDeviceRoutes.OutputName | audio/audio_hw.c:507-530 | for every request there is an output path if and only if a known device plays, and its name is the source's prefix and the speaker or the headphones, or that of both |
| AudioDeviceRoutes.InputName | audio/audio_hw.c:507-530 | there is an input path if and only if a known source records, and it is the headset's microphone for a headset, or without an output for the headset's microphone, else the source's own |
| AudioDeviceRoutes.RouteValueOf | audio/audio_hw.c:537-540 | control by control the input path has the last word, then the output path, then the saved values |
| AudioDeviceRoutes.LastChangeSameId | audio/audio_hw.c:502-505 | since the last change output and source are those of now |
| AudioDeviceRoutes.HardwareAfterRun | audio/audio_hw.c:492-543 | after every run the hardware is the saved values overlaid by the output path, then the input path, chosen when the id last changed |
| AudioDeviceRoutes.RouteIsCurrent | audio/audio_hw.c:502-530 | those are the paths for the current request if and only if the headset does not matter or is as it was |
| AudioDeviceRoutes.StaleHeadsetRoute | audio/audio_hw.c:514-524 | two requests after which the route is not the one asked for |
| AudioDeviceRoutes.StaleHeadsetHardware | audio/audio_hw.c:492-543 | a card on which those two requests leave the hardware at other values than the current request's |
| AudioDeviceRoutes.AudioDevice.constructor | audio/audio_hw.c:1866-1867 | the initial route id is 0 |
| AudioDeviceRoutes.AudioDevice.Choose | audio/audio_hw.c:507-530 | the two paths are those of the request |
| AudioDeviceRoutes.AudioDevice.ApplyRoutes | audio/audio_hw.c:537-542 | output path, then input path, then the hardware |
| AudioDeviceRoutes.AudioDevice.SelectDevices | audio/audio_hw.c:492-543 | one step of a run; with an unchanged id nothing is written, though the cache was reset |
| AudioDeviceRoutes.AudioDevice.SelectAll | audio/audio_hw.c:492-543 | any sequence of requests, selected one by one, is a run |
| AudioDeviceRoutes.BuildTwoPaths | audio/audio_route.c:138-283 | a table with two paths, built call by call from an empty one |
| AudioDeviceRoutes.StaleHeadsetRun | audio/audio_hw.c:492-543 | on that table, a selection sets the hardware, and plugging in a headset then leaves it |
| AudioCapture.StreamLength | audio/audio_hw.c:719-733 | the stream has one period of frames for each block |
| AudioCapture.StreamAt | audio/audio_hw.c:719-733 | each sample of the stream is that of its block and place, or the first of its frame in mono |
| AudioCapture.LeftOfInterleaved | audio/audio_hw.c:729-733 | of any left and right channel taken in turn the left one remains |
| AudioCapture.StreamIn.PcmRead | audio/audio_hw.c:719-725 | a block and a zero status, or a negative status and no block |
| AudioCapture.StreamIn.DownmixInPlace | audio/audio_hw.c:729-733 | the in-place loop leaves the left channel, reading only samples not yet overwritten |
| AudioCapture.StreamIn.Start | audio/audio_hw.c:648 | nothing of an earlier session is pending |
| AudioCapture.StreamIn.ReadPeriod | audio/audio_hw.c:718-734 | a successful read makes a whole period pending, a failed one none |
| AudioCapture.StreamIn.GetInputNextBuffer | audio/audio_hw.c:693-740 | the buffer handed out is the front of what is pending; a block is read only when nothing is |
| AudioCapture.StreamIn.ReleaseInputBuffer | audio/audio_hw.c:742-752 | the released frames are delivered, the rest stays pending |
| AudioCapture.StreamIn.ReadSome | audio/audio_hw.c:760-793 | one turn delivers at least one frame or fails, and touches only its part of the caller's buffer |
| AudioCapture.StreamIn.PcmReadFrames | audio/audio_hw.c:756-796 | what is copied is the next part of the stream, also when the call fails; it fails if and only if more is asked for than is pending and the device still delivers, and then loses exactly that; a closed device is left alone |
| AudioCapture.StreamIn.ReadLoop | audio/audio_hw.c:761-793 | the loop terminates; good reads until the frames are there or until one fails; none on a closed device |
| AudioCapture.ReadsOfGood | audio/audio_hw.c:718-727 | a call reads no more blocks than come before the device's first failure, a failing one all of them |
| AudioCapture.OneGoodBlockThenFailure | audio/audio_hw.c:756-796 | a device with one good block and then a failure: a frame is copied, consumed and not reported |
| AudioCapture.StreamIn.FrameConservation | audio/audio_hw.c:693-796 | delivered and pending frames add up to the blocks read, and what was delivered is a prefix of the stream |
| VolumeRamp.RampLengthIsPositive | audio/audio_hw.c:656 | the division is safe if and only if the product reaches 1000; below 42949672 Hz that is 10 Hz |
| VolumeRamp.StartIsSafe | audio/audio_hw.c:655-658 | the initial ramp cannot pass 65535 and its step fits 16 bits |
| VolumeRamp.AdvanceIsSafe | audio/audio_hw.c:1345-1349 | a frame's step does not wrap |
| VolumeRamp.Scale | audio/audio_hw.c:1348 | a scaled sample is sample times volume over 65536 rounded down, so volume 0 is silence; it gets no larger |
| VolumeRamp.AfterIsSafe | audio/audio_hw.c:1337-1362 | no number of frames makes the volume wrap or fall |
| VolumeRamp.AfterIsLinear | audio/audio_hw.c:1345-1358 | the volume is the start plus a step for each frame |
| VolumeRamp.RampedIsQuieter | audio/audio_hw.c:1345-1358 | no sample of the output is larger than that of the input |
| VolumeRamp.RampedInTwo | audio/audio_hw.c:1337-1362 | two reads give the samples of one read |
| VolumeRamp.AfterInTwo | audio/audio_hw.c:1337-1362 | and the same ramp |
| VolumeRamp.ChunkingDoesNotMatter | audio/audio_hw.c:1337-1362 | so does any sequence of reads of whole frames |
| VolumeRamp.RampedAt | audio/audio_hw.c:1345-1358 | every sample of a frame gets the volume of its frame, in both channels, or is untouched after the ramp |
| VolumeRamp.FadesIn | audio/audio_hw.c:655-658 | from set-up on, however many frames went before, frame k is scaled by k steps of 65535 over the ramp's length, rounded down; the first is silent and those past the ramp are untouched |
| VolumeRamp.RampedStream.constructor | audio/audio_hw.c:655-658 | the set-up establishes the bound |
| VolumeRamp.RampedStream.RampMono | audio/audio_hw.c:1345-1350 | the mono loop computes the ramp in place and touches nothing else |
| VolumeRamp.RampedStream.RampStereo | audio/audio_hw.c:1351-1357 | the stereo loop does, with one volume for both channels of a frame |
| VolumeRamp.RampedStream.InApplyRamp | audio/audio_hw.c:1337-1362 | every read gets the ramp's samples, also when the ramp ends within it |
| CameraStream.NXQueue.Queue | include/NXQueue.h:18-20 | the item is last in the queue |
| CameraStream.NXQueue.Dequeue | include/NXQueue.h:22-27 | the oldest item leaves |
| CameraStream.NXQueue.GetHead | include/NXQueue.h:29-31 | the oldest item |
| CameraStream.NXQueue.GetItem | include/NXQueue.h:45-47 | index 0 is the newest item |
| CameraStream.ReturnOldest | camera/NXStream.cpp:57-99 | returning the oldest buffer keeps every buffer in exactly one place and the order of return that of arrival |
| CameraStream.NXStream.RegisterBuffer | camera/NXStream.cpp:15-24 | custody goes on if and only if the new buffers are exactly those that the framework owns or the HAL holds |
| CameraStream.NXStream.FindBufferIndex | camera/NXStream.cpp:117-131 | an index of the buffer, or BAD_VALUE if and only if it is not registered |
| CameraStream.NXStream.DequeueBuffer | camera/NXStream.cpp:44-55 | fails if and only if no registered buffer was handed over; a new one is last in the queue, otherwise nothing changed |
| CameraStream.NXStream.InitBuffer | camera/NXStream.cpp:26-42 | exactly maxBuffers more are held unless the framework runs out or withholds one; none are taken once initialised |
| CameraStream.NXStream.EnqueueBuffer | camera/NXStream.cpp:57-83 | the oldest buffer goes back enqueued, or cancelled if and only if the framework refused it; custody holds |
| CameraStream.NXStream.CancelBuffer | camera/NXStream.cpp:85-99 | the oldest buffer goes back cancelled; custody holds |
| CameraStream.NXStream.FlushBuffer | camera/NXStream.cpp:101-115 | the HAL holds nothing, the framework owns every buffer, those held were cancelled in order, and initialisation is possible again |
| CameraStream.NXStream.NothingHeld | camera/NXStream.cpp:101-115 | an empty HAL queue means that all that was given was returned, in order |
| StreamThreads.StreamThread.QueueAll | camera/PreviewThread.cpp:151-159 | driver index i gets the i-th oldest buffer; fails only if the driver does |
| StreamThreads.StreamThread.ReadyToRun | camera/PreviewThread.cpp:142-174 | start-up ends in lockstep, with a buffer if there is one to be had, and fails only if the driver does; in the record thread too |
| StreamThreads.StreamThread.PreviewLoop | camera/PreviewThread.cpp:177-246 | a turn keeps the lockstep: the buffer sent or cancelled is the one under the index just dequeued, which the new buffer takes over; each way to end is named, with what driver and HAL then hold and what was returned; each way to end is the failure of its own call or its own exit check |
| StreamThreads.StreamThread.RecordLoop | camera/RecordThread.cpp:129-194 | the same in the record thread's order of steps and with its one exit check; each way to end is the failure of its own call or its own exit check |
| StreamThreads.StreamThread.Requeue | camera/PreviewThread.cpp:224-243 | a new buffer takes over the index, or the exit is named; each way to end is the failure of its own call or its own exit check |
| StreamThreads.StreamThread.PreviewTurn | camera/PreviewThread.cpp:177-246 | without a failure, refusal or exit request a turn fills and sends on one frame and goes on |
| StreamThreads.StreamThread.RecordTurn | camera/RecordThread.cpp:129-194 | so does one of the record thread |
| StreamThreads.TurnReturns | camera/PreviewThread.cpp:177-246 | what was returned after a turn: the frames sent on, and a frame that could not be enqueued |
| StreamThreads.StreamThread.PreviewSession | camera/PreviewThread.cpp:142-246 | after start-up, any number of turns and the flush every buffer is back, in order of arrival: by index, the frames filled, the first `skipFrames` cancelled and the others delivered, then those cancelled, among them at most one filled frame; with no failure, refusal or exit request all turns are taken and every one sends its frame on |
| StreamThreads.StreamThread.RecordSession | camera/RecordThread.cpp:101-194 | the same for the record thread, where every frame sent on is delivered, and with no failure, refusal or exit request one in every turn |
| InputEvents.FoldBack | libsensors/general/InputEventReader.cpp:63-66 | folding the overrun back yields the unread events followed by the new ones |
| InputEvents.InputEventCircularReader.constructor | libsensors/general/InputEventReader.cpp:35-42 | an empty ring of N events in an array of 2N |
| InputEvents.InputEventCircularReader.Fill | libsensors/general/InputEventReader.cpp:49-72 | the events read are behind the unread ones; a failed or partial read adds none |
| InputEvents.InputEventCircularReader.Store | libsensors/general/InputEventReader.cpp:53 | a read at the head never touches an unread event nor leaves the array |
| InputEvents.InputEventCircularReader.Advance | libsensors/general/InputEventReader.cpp:60-68 | head, fold-back and free space account for the new events |
| InputEvents.InputEventCircularReader.ReadEvent | libsensors/general/InputEventReader.cpp:74-79 | the oldest unread event, if and only if there is one |
| InputEvents.InputEventCircularReader.Next | libsensors/general/InputEventReader.cpp:81-88 | the oldest unread event is consumed |
| Acceleration.OneEventPerSyn | libsensors/general/AccelerationSensor.cpp:159-165 | as many events are sent as EV_SYN arrive |
| Acceleration.InTwoParts | libsensors/general/AccelerationSensor.cpp:128-176 | a stream can be cut anywhere |
| Acceleration.SentEvent | libsensors/general/AccelerationSensor.cpp:147-166 | the k-th EV_SYN of any stream sends the k-th event: each axis is the resolution times the last value reported for it before, or its initial value, and the time is that of the EV_SYN |
| Acceleration.SynOfSent | libsensors/general/AccelerationSensor.cpp:159-166 | every sent event is that of an EV_SYN |
| Acceleration.AccelerationSensor.HandleEvent | libsensors/general/AccelerationSensor.cpp:148-169 | an axis update changes its axis, EV_SYN sends the pending event if enabled |
| Acceleration.AccelerationSensor.Process | libsensors/general/AccelerationSensor.cpp:147-171 | one event is taken from the reader and accounted for |
| Acceleration.AccelerationSensor.ReadEvents | libsensors/general/AccelerationSensor.cpp:128-176 | fails if and only if count is below 1 or a read of free space is partial or failed; otherwise every event read is received and at most count are sent, fewer only when nothing is left; while enabled all that was ever sent is one fold over the events taken |
| Acceleration.AccelerationSensor.SplitDoesNotMatter | libsensors/general/AccelerationSensor.cpp:128-176 | sent events, with those the carried-over state would still send, are one fold over the whole stream |
| SensorMessages.SendKeepsProtocol | include/NXMessageThread.h:20-24 | a message from outside keeps the protocol |
| SensorMessages.TakeKeepsProtocol | camera/NXSensorThread.cpp:27-42 | processing a message keeps it |
| SensorMessages.PostKeepsProtocol | include/NXMessageThread.h:26-29 | posting the delayed message keeps it |
| SensorMessages.RunKeepsProtocol | camera/NXSensorThread.cpp:10-48 | for every interleaving PRECAPTURE and CONVERGED alternate, the flag tells which comes next, and every trigger is answered or waiting |
| SensorMessages.QuietMeansDone | camera/NXSensorThread.cpp:27-42 | with nothing queued or delayed the flag is clear and starts, ends and triggers are equally many |
| SensorMessages.FocusIsAnswered | camera/NXSensorThread.cpp:15-26 | after every run each focus message sent is answered once, in order and under its id, locked for a trigger and inactive for a cancel, or is still queued |
| SensorMessages.IdsAreKept | camera/NXSensorThread.cpp:27-42 | each trigger's id is notified as converged once, or is still queued or about to be |
| SensorMessages.BalanceAlwaysFollows | camera/NXSensorThread.cpp:27-42 | every notification about the exposure is followed by the one about the white balance with its id |
| SensorMessages.DelayedHasStartId | camera/NXSensorThread.cpp:27-36 | the message about to be posted has the id of the start notified last |
| SensorMessages.QuietMeansAnswered | camera/NXSensorThread.cpp:10-48 | at rest every trigger and focus message sent has been answered under its own id |
| SensorMessages.Drained | camera/NXSensorThread.cpp:27-42 | left alone the thread comes to rest, by queue length and flag, without losing a trigger |
| SensorMessages.DrainedKeepsProtocol | camera/NXSensorThread.cpp:27-42 | every trigger then has had one start and one end |
| SensorMessages.EndIsFirstQueued | camera/NXSensorThread.cpp:27-42 | the first trigger queued ends the metering in progress, whoever sent it |
| SensorMessages.EndHasOwnId | camera/NXSensorThread.cpp:27-42 | an end carries its own trigger's id if and only if no trigger with another id is first in the queue when its message is posted |
| SensorMessages.LaterMessagesDoNotMatter | include/NXMessageThread.h:20-24 | what is sent after that cannot change the id |
| SensorMessages.TriggersGetCrossed | camera/NXSensorThread.cpp:27-42 | a run in which one trigger's end carries the other's id |
| SensorMessages.NXSensorThread.SendMessage | include/NXMessageThread.h:20-24 | the send step |
| SensorMessages.NXSensorThread.SendMessageDelayed | include/NXMessageThread.h:26-29 | whatever arrives during the delay is ahead of the delayed message |
| SensorMessages.NXSensorThread.ProcessMessage | camera/NXSensorThread.cpp:10-48 | the take step of the message, and the post step after the delay |
| SensorMessages.NXSensorThread.ThreadLoop | include/NXMessageThread.h:34-42 | messages are processed oldest first |
| SensorMessages.TurnIsSteps | camera/NXSensorThread.cpp:10-48 | a turn is the take step, the sends that arrive during the delay and the post step |
| SensorMessages.NXSensorThread.Session | include/NXMessageThread.h:20-42 | any messages and turns on the real queue are one run of the protocol's steps, and keep the protocol |
| DisplayRing.QueueIndex | hwc2/renderer/HWCCommonRenderer.cpp:67-85 | queueing under the current index extends the window of outstanding indices |
| DisplayRing.NextIndexIsFree | hwc2/renderer/HWCCommonRenderer.cpp:67 | the next index is outstanding if and only if the whole ring is |
| DisplayRing.LastIndicesDiffer | hwc2/renderer/HWCCommonRenderer.cpp:83-85 | no index is outstanding twice |
| DisplayRing.FramesStayInSync | hwc2/renderer/HWCCommonRenderer.cpp:51-91 | with two buffers or more, after any number of frames the outstanding buffers are the last one or two queued and the next index is free |
| DisplayRing.FrameInSync | hwc2/renderer/HWCCommonRenderer.cpp:57-85 | a frame keeps an account that is right, and has a free index and, if it waits, a buffer to wait for |
| DisplayRing.RingNeedsTwo | hwc2/renderer/HWCCommonRenderer.cpp:57-85 | no number of frames queues an outstanding index if and only if the ring has at least two buffers |
| DisplayRing.HWCCommonRenderer.Render | hwc2/renderer/HWCCommonRenderer.cpp:51-91 | with two buffers or more, count, index and outstanding buffers agree after every call and the driver is not misused, failed calls included; after a failed stream start the next frame's index is taken, and a frame shown from any state is a misuse exactly when its index is; it fails if and only if one of its driver calls does |
| DisplayRing.HWCCommonRenderer.Stop | hwc2/renderer/HWCCommonRenderer.cpp:93-103 | a started stream is emptied and the counters with it |
| DisplayRing.MirrorFrameKeepsSync | hwc2/renderer/HDMIMirrorRenderer.cpp:138-166 | queue-then-wait keeps the account and leaves an index free |
| DisplayRing.MirrorFills | hwc2/renderer/HDMIMirrorRenderer.cpp:126-169 | after n frames from the start n buffers are outstanding, or all but one of the ring |
| DisplayRing.MirrorIndexIsFree | hwc2/renderer/HDMIMirrorRenderer.cpp:138-142 | the mirror's next index is taken if and only if the ring is full |
| DisplayRing.MirrorStopBreaksSync | hwc2/renderer/HDMIMirrorRenderer.cpp:171-179 | stop keeps the account if and only if nothing was outstanding |
| DisplayRing.MirrorAfterRestart | hwc2/renderer/HDMIMirrorRenderer.cpp:126-179 | after a stop in the steady state every frame is awaited at once, which leaves the driver empty |
| DisplayRing.WindowIndexIsTaken | hwc2/renderer/HDMIMirrorRenderer.cpp:138-142 | with the last k queued buffers outstanding, the next index is taken if and only if k is the ring's size |
| DisplayRing.StepKeepsWindow | hwc2/renderer/HDMIMirrorRenderer.cpp:126-179 | frames shown, failed waits and stops keep the outstanding buffers the last ones queued |
| DisplayRing.NoFailureNoMisuse | hwc2/renderer/HDMIMirrorRenderer.cpp:126-179 | in every run without a failed wait, stops included, no taken index is queued |
| DisplayRing.SteadyOutstanding | hwc2/renderer/HDMIMirrorRenderer.cpp:155-163 | once the counter is up, as many buffers are outstanding as waits failed since the last stop |
| DisplayRing.MisuseAfterFailures | hwc2/renderer/HDMIMirrorRenderer.cpp:126-179 | then a taken index comes next if and only if those failures make up the whole ring |
| DisplayRing.FailedWaitFillsTheRing | hwc2/renderer/HDMIMirrorRenderer.cpp:126-169 | a run of three frames after which the next index is taken |
| DisplayRing.HDMIMirrorRenderer.Render | hwc2/renderer/HDMIMirrorRenderer.cpp:126-169 | one such step, in sync or not; the driver is misused if and only if every buffer is outstanding; what a failed start leaves is stated; it fails if and only if one of its driver calls does |
| DisplayRing.HDMIMirrorRenderer.Stop | hwc2/renderer/HDMIMirrorRenderer.cpp:171-179 | the driver is emptied, the counters stay, and the outstanding buffers are still the last ones queued |
| PlaneLayout.ChromaHeights | gralloc/gralloc.cpp:160-166 | the chroma height from the aligned height exceeds that from the raw one, by 16, if and only if the height is 1 modulo 32 |
| PlaneLayout.Yv12PlanesAgree | nxutil/NXScaler.cpp:76-84 | for every size scaler, converter and v4l2_qbuf agree on three planes that lie end to end within the allocated size, filling it unless the height is 1 modulo 32 |
| PlaneLayout.Nv21PlanesAgree | v4l2/nxp-v4l2.cpp:164-175 | the same for NV21, where nothing is left over |
| PlaneLayout.PlanesHoldTheImage | gralloc/gralloc.cpp:160-166 | every plane has room for every visible row and column |
| PlaneLayout.CscStepIsStride | nxutil/NXCsc.cpp:101-104 | the width is the allocated stride if and only if it is a multiple of 32 |
| ScalerCrop.ScalerZoomController.constructor | camera/ScalerZoomController.cpp:34-54 | the first crop is set at once |
| ScalerCrop.ScalerZoomController.SetCrop | camera/ScalerZoomController.cpp:111-161 | the context is that of the crop when it is recomputed, and untouched otherwise |
| ScalerCrop.ScaledFits | camera/ScalerZoomController.cpp:126-140 | scaling keeps a crop that fits the base inside the buffer |
| ScalerCrop.CDivTruncates | camera/ScalerZoomController.cpp:129-139 | the quotient leaves a rest smaller than the divisor with the dividend's sign |
| ScalerCrop.CropIsExact | camera/ScalerZoomController.cpp:119-156 | the top is the scaled one rounded down, the left the least multiple of 32 from there on, the sizes the scaled ones cut off at the buffer's edges; a crop that spans the base starts at 0 |
| ScalerCrop.CropIsInside | camera/ScalerZoomController.cpp:119-156 | for widths that are multiples of 32: left is 32-aligned, no size is negative, the window lies inside |
| ScalerCrop.CropWidthIsNegative | camera/ScalerZoomController.cpp:142-147 | for any width, the source width is negative if and only if the scaled left is past the last multiple of 32 |
| ScalerCrop.NegativeWidthExample | camera/ScalerZoomController.cpp:142-147 | a crop with a width of -28 |
| ScalerCrop.AddressesAreExact | nxutil/NXScaler.cpp:27-49 | on aligned planes the rounding is the identity: each address is the window's first sample |
| ScalerCrop.PlanarAddressesAreExact | nxutil/NXScaler.cpp:27-49 | so it is on all planes of 4:2:2 and 4:4:4 planar formats |
| ScalerCrop.PackedAddressIsExact | nxutil/NXScaler.cpp:27-35 | and for the one plane of a packed format |
| ScalerCrop.WindowSampleInside | nxutil/NXScaler.cpp:125-135 | a window's sample is the sample of its row and column of the plane, and inside it |
| ScalerCrop.ZoomReadsInsidePlanes | camera/ScalerZoomController.cpp:119-156 | for every crop inside the base every sample the scaler reads is of the right row and column, in all three planes |
| ColorConvert.StoredVisible | nxutil/csc.cpp:24-28 | rows stored at a stride are the rows seen at it |
| ColorConvert.StoredPadding | nxutil/csc.cpp:24-28 | every other byte, padding included, is untouched |
| ColorConvert.VisiblePrefix | nxutil/csc.cpp:88-95 | the rows seen depend on nothing past the last of them |
| ColorConvert.MemCopy | nxutil/csc.cpp:25 | the range is overwritten and nothing else |
| ColorConvert.CopyRows | nxutil/csc.cpp:24-28 | the loop stores the source's visible rows at the destination's stride |
| ColorConvert.Separated | nxutil/csc.cpp:36-39 | taking an interleaved row apart gives its parts |
| ColorConvert.SeparatedRows | nxutil/csc.cpp:35-43 | so does taking apart a plane |
| ColorConvert.InterleaveRow | nxutil/csc.cpp:36-39 | the inner loop interleaves a row, Cr first |
| ColorConvert.InterleaveRows | nxutil/csc.cpp:33-43 | the chroma loop stores the interleaved rows |
| ColorConvert.Nv21KeepsThePicture | nxutil/csc.cpp:9-46 | reading the converted buffer as NV21 gives the picture, for every size, whatever the destination held, if the planes do not overlap |
| ColorConvert.Nv21Bytes | nxutil/csc.cpp:24-43 | byte for byte: luma at its place, Cr at even and Cb at odd columns, from where the source has them |
| ColorConvert.CscYV12ToNV21 | nxutil/csc.cpp:9-46 | the destination is the one of that picture, byte for byte |
| ColorConvert.LumaPathsAgree | nxutil/csc.cpp:83-96 | bulk and row-wise luma copy show the same rows |
| ColorConvert.CscYV12ToYV12 | nxutil/csc.cpp:73-112 | all three planes, byte for byte, and the picture they show |
| ColorConvert.CopyTwoPlanes | nxutil/csc.cpp:97-110 | the chroma loop stores both planes' rows |
| NxCsc.PlanesFit | nxutil/NXCsc.cpp:92-104 | for every size the rows the conversion steps through lie inside what was allocated |
| NxCsc.NxCsc | nxutil/NXCsc.cpp:78-114 | fails without a change for other formats or a failing mmap; otherwise the destination is the converted one, which shows the source's picture for widths that are multiples of 32 and for one row at most |
| NxCsc.PictureKept | nxutil/NXCsc.cpp:92-104 | the sufficient half: for those sizes the picture is kept, whatever both buffers held |
| NxCsc.PictureLost | nxutil/NXCsc.cpp:92-104 | the necessary half: for every other size a visible byte of the destination is never written |
| NxCsc.PictureSurvives | nxutil/NXCsc.cpp:78-114 | the destination shows the source's picture for all contents of both buffers if and only if the width is a multiple of 32 or there is one row at most |
| NxCsc.QcifIsLost | nxutil/NXCsc.cpp:92-104 | contents at 176x144 for which it does not |
| NxCsc.PastTheRows | nxutil/NXCsc.cpp:101-104 | luma bytes past width times height are not written |
| NxCsc.WidthStepSeesTheRows | nxutil/NXCsc.cpp:101-104 | the reading half alone: rows one width apart are a luma plane's rows, for all contents, if and only if the width is a multiple of 32 or there is at most one row |
| ArgbConvert.ClampsAreIdle | nxutil/csc.cpp:124-139 | no clamp takes effect: luma is in 16..235, chroma in 16..240 |
| ArgbConvert.LumaAt | nxutil/csc.cpp:118-127 | luma byte k is that of pixel k |
| ArgbConvert.ChromaOf | nxutil/csc.cpp:129-139 | two chroma bytes for each even row and column |
| ArgbConvert.ChromaAt | nxutil/csc.cpp:129-139 | the pair of an even row and column is at its subsampled place, Cb first |
| ArgbConvert.PixelConverted | nxutil/csc.cpp:116-142 | each pixel's luma and each even pixel's Cb and Cr are the formula of its own red, green and blue byte, rounded to the nearest |
| ArgbConvert.ConvertPixel | nxutil/csc.cpp:120-140 | one luma byte, and one chroma pair if row and column are even |
| ArgbConvert.ConvertRow | nxutil/csc.cpp:119-142 | the inner loop extends both planes by a row |
| ArgbConvert.CscArgb8888ToNv12 | nxutil/csc.cpp:114-144 | both planes, of exactly W*H and 2*ceil(W/2)*ceil(H/2) bytes, and not a byte after them |

## Left out

- Everything foreign: ioctl, mmap, ion, sysfs, the PCM device, the resampler, audio effects, JPEG hardware, binder and the framework. They are the environment above or not modelled.
- The floating-point preparation of the attribute record, its dates and GPS degrees: the record is the input.
- XML parsing in `audio_route_init`: the model starts at the calls that build paths and controls.
- Failing allocations: `realloc`, `malloc` and `new` succeed.
- The resampler branch of `pcm_read_frames`. `in_read` enters the branch modelled here only when there is neither a resampler nor an open device; with a device and no resampler it reads the device itself.
- The rest of `pcm_input_start`: opening the device and its reference count.
- The audio output side, whose count of HDMI streams is not balanced.
- Threads: `PreviewSession` and `RecordSession` run any number of turns, and other threads appear as the exit requests and the messages that may arrive at any point. Starting, stopping and waiting are not modelled; a message sent by another thread during the delay is an arrival.
- The zoom branches of the thread loops, and `setTimestamp` and the timestamps of the record thread.
- NXQueue: `dequeue` returns a value; in the source it returns a reference to the element it has just removed.
- StreamThreads.StreamThread.ReadyToRun: does not model `v4l2_reqbuf`, formats or the board's preview mode.
- CameraStream.NXStream.RegisterBuffer: what the operations do with a held buffer that is no longer registered is not modelled; they require custody.
- Acceleration.AccelerationSensor.HandleEvent: acceleration is a real number, so the rounding of `float` is not modelled.
- The branch of `readEvents` for `mHasPendingEvent`, which is never set in the source, and `enable`, `setDelay` and the other sensors.
- ExifProcessor.NXExifProcessor.AllocOutBuffer: a destination handle with less memory than the output buffer needs is not modelled; the source does not look at its size.
- AudioRouting.MixerPath.AddValue: a value index below -1, which the source would write in front of the array, is not modelled.
- NxCsc.NxCsc: handles of another size than the one passed are not modelled.
- AudioRouting.AudioRoute.AddPathTo: a nested path of an unknown name, for which the source passes a null pointer on, is not modelled.
- DisplayRing: fences and the other renderers; the buffer index the driver reports, which the source ignores.
- ScalerCrop: `useDefault` and the scaler overloads whose source is a handle, which use the crop's width as the stride.
- ScalerCrop.PlanarAddressesAreExact: says nothing of a source format that is neither packed nor one of the three planar ones, for which the chroma addresses stay zero.
- PlaneLayout: the other allocators of gralloc and the shared descriptors of planes.
- ColorConvert.CscYV12ToYV12: planes are separate buffers, so overlapping destinations are not modelled.
- The NEON conversions, the planar conversion from a video buffer, and every other case of `nxCsc`.
- Sensor tables, camera metadata, lights and the keystore: finite tables and single branches, or calls into libraries.
