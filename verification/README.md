# Baby-monitor camera firmware: models and proofs

This project models the algorithms and state machines inside the firmware of a network baby-monitor
camera and proves what they keep, compute and promise. Each file is one component. Where the program
changes variables step by step, the model has a class with those variables and methods that follow the
code; each such method is proved to compute a function, and the lemmas say what that function is worth.

| files | component |
|---|---|
| `Envelope`, `Polygon`, `ClockDiscipline`, `VerdictTheorems`, `Steering` | the phase-lock loop that disciplines the clock |
| `NtpTime` | fixed-point time and the SNTP offset |
| `Reassembler`, `Framing` | messages out of a TCP byte stream, per connection |
| `ChannelTable`, `Heartbeats` | the table of connections, heartbeat expiry, and the descriptors the process holds |
| `Adpcm` | the audio codec |
| `AudioRing`, `AudioRaces`, `AlarmBlocks` | the ring of encoded packages that two threads share, and the sound alarm's blocks |
| `UsbSwitch`, `DhcpRetry` | two tick-driven machines whose waits are equality tests |
| `UrlCodec`, `LineBreaks`, `Base64` | text codecs |
| `LevelQueue`, `SoundDetector` | the linked queue and the detector over it |
| `Bytes`, `Modular`, `Wrappers` | octets; remainders by a symbolic modulus; a value that may be missing |

`dafny verify dfyconfig.toml` checks everything.

## How to read the model

- **The clock loop.** Floating-point numbers are reals. A measurement is an error bar at a point in time.
  `Bars` is the geometry, `ClockDiscipline.Verdict` what the five passes compute from it, and class
  `PhaseLock` the loop over the ring of sixteen; `ContemplateData` computes `Verdict` of the last sixteen
  measurements. What a decision is worth is told in `Steering`, by where the lines that pass through the
  bars are heading, and not by how it is computed. The 32-bit wrap of the time stamps is modelled: `ContemplateData` works on stamps modulo
  2^32 and takes the unwrapped time as a ghost argument. A computed frequency of `None` is the division
  by zero in the fine correction.
- **The reassembler.** Any `recv` may block or return any fragment. `Run` is a run of the main loop;
  `Parse` is the simple parser that says what should come out, and `Framing` what a client may send.
- **The audio ring.** A step is one load or store of a shared variable; the fetch alone loads the count
  five times. The history fields `all`, `life` and `sent` are for the statements only.
- **The tick machines.** Driver calls, logins and addresses are inputs of each tick or pass.

## Where the code differs from its own comments, or from what one would expect

- `search` is documented to look for the largest slope for sign 0 and the smallest for sign 1; it does the
  reverse, which is what its callers need (NTP/NTP.c:617-643). The model follows the code.
- `USEC` is called basically exact. It is within 380.5 microseconds, but it is not monotone: at every
  fraction that is 2^25 modulo 2^26, and at no other, it goes back, by 758 (`NtpTime.MicrosecondsGoBack`).
- Pass 3 keeps the shallower of two crossings, as pass 2 does, where its mirror image would keep the
  steeper. For upright bars it does not matter: `KeptLinesAreTheExtremes` holds all the same. Pass 4 stores through `min_imin`, which is
  never set, and sets `max_imin` twice; the array `minseg` has a spare element that takes the store.
- The verdict of passes 2 and 3 is sound exactly when no error bar is upside down
  (`VerdictSoundIffUpright`; `UpsideDownIsCalledConsistent` is an input where it is not). A bar is upside
  down exactly if its error was measured below the minimal delay, which `contemplate_data` takes off it
  (`UprightIffErrorbars`).
- It rejects consistent data exactly when one of two tests fails: the shallowest consistent line must touch
  a single upper bar end, and if that is the oldest bar's be steeper than -500; the steepest must touch a
  single lower bar end, and if that is the oldest bar's be shallower than 500
  (`CalledConsistentIffSoleTouches`; `TieIsCalledInconsistent` and `LowerTieIsCalledInconsistent` are
  inputs that fail either test).
- The fetch tests the wanted index against the count only at its third load. At its fourth the count may
  have been reset or wrapped: the slot is right exactly if the index is still below the count and the ring
  is not erased (`FetchedSlotIsRight`); `ResetRace` is a run in which a blank slot goes out.
- In the audio sender a frame index can go back within an epoch, a package can go out twice or under a wrong
  serial number, and a slot that is still being filled can go out (`LookTwiceRace`, `SendsAgainFromZero`,
  `ThirdLoadRace`, `FourthLoadRace`, `FifthLoadRace`). `Calm` says which store of the capture thread does it
  at which load. The condition is exact: after a calm store the sender can go on alone for ever without
  breaking the order, after any other it breaks it (`CalmIsExact`), and each of the exceptions is met in
  some run (`AudioRaces.EveryExceptionIsMet`). In all calm runs the order holds (`SentInOrder`).
- The source provides for lines on both sides that are all bad, and says that its flag for it is never set. It
  cannot be: every line is fast enough or slow enough (`NoLineIsNeither`).
- The correction is rounded by adding a half and truncating, so a negative one may lose up to 1.5 units
  (`DecisionTilts`).
- A client that declares the same channel twice closes it (`DeclarationClosesTheFirst`). A client that
  declares user 0 and kind 0, which the code does not refuse, closes the first connection that has declared
  nothing, whoever's it is (`DeclarationClosesAnother`, `NobodyClosesTheFirst`).
- A full table of connections none of which is a control channel is never cleared by expiry; it stays full
  until a client closes or declares a channel (`SilentTableStaysFull`).
- A USB switch command back to the side that is still linked is ignored, even in the middle of a switch
  (`CommandBackIsLost`).
- With a held input at most eleven ADPCM samples are overloaded, and eleven happens
  (`AtMostElevenOverloads`, `ElevenHappens`).
- The comment in the detector speaks of ten levels; the window holds fifteen.

## Model

| member | source | states |
|---|---|---|
| VerdictTheorems.UpperEnvelopeIsConvex | NTP/NTP.c:770-789 | pass 2 ends at the newest measurement within n - 1 segments, so inside maxseg; the slopes never decrease; every upper bar end is on or above the line of every segment |
| VerdictTheorems.LowerEnvelopeIsConcave | NTP/NTP.c:790-809 | the mirror image for pass 3 and the lower bar ends |
| VerdictTheorems.KeptLinesAreTheExtremes | NTP/NTP.c:775-809 | data called consistent, no bar upside down: both kept lines pass through all bars and every other line that does has its slope between theirs |
| VerdictTheorems.VerdictSoundIffUpright | NTP/NTP.c:775-809 | of data called consistent: some line passes through all bars if and only if no bar is upside down |
| VerdictTheorems.NarrowIsCalledConsistent | NTP/NTP.c:747-809 | sixteen upright bars that the passes call consistent |
| VerdictTheorems.UpsideDownIsCalledConsistent | NTP/NTP.c:747-809 | sixteen bars that the passes call consistent although no line passes through them |
| VerdictTheorems.CalledConsistentIffSoleTouches | NTP/NTP.c:775-870 | consistent data have a shallowest and a steepest line; they are called consistent, with these as the kept lines, if and only if the first touches a single upper end, above the initial bound if it is the oldest, and the second a single lower end likewise; otherwise the frequency is left alone |
| VerdictTheorems.AcceptsIffSoleTouch | NTP/NTP.c:775-787 | the half for pass 2 and the shallowest line |
| VerdictTheorems.AcceptsIffSoleLowerTouch | NTP/NTP.c:795-807 | the half for pass 3 and the steepest line |
| VerdictTheorems.UprightIffErrorbars | NTP/NTP.c:747-758 | the corrected bars are upright if and only if no stored error is negative |
| VerdictTheorems.TieIsCalledInconsistent | NTP/NTP.c:775-787 | consistent data with a tie at the upper ends, on which the frequency is left alone |
| VerdictTheorems.LowerTieIsCalledInconsistent | NTP/NTP.c:795-807 | consistent data with a tie at the lower ends, which pass 3 rejects |
| VerdictTheorems.InconsistentDataLeaveFrequency | NTP/NTP.c:854-858 | if no line passes through upright bars the frequency is not changed |
| VerdictTheorems.DecisionIsLegal | NTP/NTP.c:816-870 | upright bars: the fine correction never divides by zero, pass 4 never finds its inconsistencies, and the decision is in the legal range |
| VerdictTheorems.TrueDriftIsBracketed | NTP/NTP.c:753-809 | a clock of constant drift measured within its bars has its drift between the two kept slopes, whatever corrections were made meanwhile |
| ClockDiscipline.CorrectionStraightens | NTP/NTP.c:753-769 | pass 1 undoes the recorded frequency changes: the true line passes through the corrected bars if and only if every measurement was within its error |
| ClockDiscipline.ScanPicks | NTP/NTP.c:617-643 | the scan finds the extreme slope among all later points, and the line through both |
| ClockDiscipline.FinishIsSound | NTP/NTP.c:776-786 | every march, from any point on, keeps: strides of least slope, checks that are crossings |
| ClockDiscipline.WanderIsCumStep | NTP/NTP.c:767-768 | the wrapped 32-bit difference gives the true step of the correction |
| ClockDiscipline.PhaseLock.Search | NTP/NTP.c:623-643 | the ring loop computes the scan of the lines from slot j in order of age |
| ClockDiscipline.PhaseLock.CorrectWander | NTP/NTP.c:754-769 | the ring loop gives every slot its corrected ends and changes nothing else |
| ClockDiscipline.PhaseLock.MarchUp | NTP/NTP.c:775-789 | pass 2 fills maxseg with the march's segments and keeps the line the march keeps |
| ClockDiscipline.PhaseLock.MarchDown | NTP/NTP.c:795-809 | the same for pass 3 and minseg |
| ClockDiscipline.PhaseLock.SpliceUpper | NTP/NTP.c:818-832 | the upper half of pass 4 visits exactly the corners between the kept slopes |
| ClockDiscipline.PhaseLock.SpliceLower | NTP/NTP.c:834-848 | the lower half |
| ClockDiscipline.PhaseLock.Rethink | NTP/NTP.c:751-873 | passes 1 to 5 on a full ring compute the verdict on the corrected bars |
| ClockDiscipline.PhaseLock.ContemplateData | NTP/NTP.c:726-873 | one call: the window of the last sixteen measurements slides, and the result is the verdict on it, or the old frequency while it is not full |
| Envelope.SegmentsLieUnder | NTP/NTP.c:770-786 | every bar end lies on or above every segment of a gift-wrapping march |
| Envelope.SlopesNeverDecrease | NTP/NTP.c:770-786 | strides of least slope make a convex chain |
| Envelope.VerdictIsSoundIffUpright | NTP/NTP.c:775-809 | a shallowest and a steepest crossing exist together with a fitting line exactly if the bars are upright |
| Envelope.KeepsIffSoleTouch | NTP/NTP.c:779-780 | the acceptance test keeps a line exactly if the least crossing touches one end alone |
| Polygon.PolygonIsExact | NTP/NTP.c:810-852 | after pass 4 each side of df is the least shift over all lines that pass through all the bars, capped at the initial 20 |
| Steering.ShiftsAreLeastTilts | NTP/NTP.c:681-703 | the two shifts of a line are the least rise and the least fall of its slope that bring it, ten minutes ahead, to the right side of zero, or a hundred minutes ahead beyond 1.8 ms on that side |
| Steering.NoLineIsNeither | NTP/NTP.c:658-675 | every line is fast enough or slow enough, so the case of both sides does not arise |
| Steering.DecisionTilts | NTP/NTP.c:658-871 | on consistent data the frequency falls by 65536 times a gross and a fine tilt, rounded as C does, within 250 ppm. Gross: 0 if some consistent line is fast enough and some slow enough, else the least tilt that makes one good, at most 20. Fine: draws the centre to zero at 600 or 1800 seconds, divided by 1 + (dt + 1200 ds) / 1000, and not at all if all are over 1 ms off on one side |
| Steering.SlowClockIsSpedUp | NTP/NTP.c:859-871 | if all consistent lines are too slow the frequency falls at least by the least tilt that makes one fast enough, and the centre is not carried past zero at ten minutes |
| Steering.FastClockIsSlowedDown | NTP/NTP.c:859-871 | the mirror image |
| Steering.LockedClockIsLeftAlone | NTP/NTP.c:859-871 | the frequency is kept when lines are good on both sides and the centre crosses zero between 600 and 1800 seconds ahead |
| ClockDiscipline.WindowIsLastSixteen | NTP/NTP.c:745-750 | after any number of measurements the window is the last sixteen |
| Polygon.GrossCorrectionIsLeast | NTP/NTP.c:658-675 | the gross correction is at most what any consistent line needs to reach the target on that side, and at most 20 |
| Polygon.FineCorrectionIsDamped | NTP/NTP.c:706-724 | on consistent data the fine correction exists, has the sign of the step to the centre and never overshoots it |
| NtpTime.FractionIsClose | NTP/NTP.c:66-66 | NTPFRAC fits 32 bits, is never above the exact fraction and less than 12 units below |
| NtpTime.MicrosecondsAreClose | NTP/NTP.c:79-79 | USEC of every 32-bit fraction is in 0..999999 and within 381 microseconds of exact |
| NtpTime.RoundTrip | NTP/NTP.c:66-79 | back and forth is off by at most 380 microseconds |
| NtpTime.MicrosecondsGoBack | NTP/NTP.c:75-79 | from one fraction to the next USEC goes back if and only if the next is 2^25 modulo 2^26, then by 758, and otherwise goes up by at most one |
| NtpTime.DifferenceIsTrue | NTP/NTP.c:531-545 | ntpdiff is the true signed difference across eras, or one unit of 2^-32 s less when the fractions borrow |
| NtpTime.SlopIsTimeOnTheWay | NTP/NTP.c:458-471 | the computed slop is the time spent on the way, to one unit |
| NtpTime.OffsetWithinHalfSlop | NTP/NTP.c:458-471 | non-negative one-way delays: the computed offset is within half the slop, and one unit, of the true offset (section 5 of RFC 4330) |
| Reassembler.ParseResumes | NewsChannel/NewsChannel.c:732-862 | parsing a stream in two parts gives what parsing it whole gives |
| Reassembler.DeliversWhatIsParsed | NewsChannel/NewsChannel.c:732-862 | in every run of either variant the messages delivered, and the one that is ready, are those the parser finds in the bytes consumed |
| Framing.OkIffBeginsFrame | NewsChannel/NewsChannel.c:755-800 | the receiver takes a header if and only if it is that of some frame: magic, little-endian length at offset 15, body of at most 489 bytes |
| Framing.FramesAreParsed | NewsChannel/NewsChannel.h:173-180 | of any stream of frames and stray headers, with a part of a frame at its end, exactly the frames are parsed |
| Framing.EveryStreamIsFramed | NewsChannel/NewsChannel.c:732-862 | and every stream is one |
| Framing.SentFramesAreDelivered | NewsChannel/NewsChannel.c:732-967 | a channel that is read long enough, in whatever fragments, has delivered exactly the frames that were sent |
| Reassembler.FragmentationDoesNotMatter | NewsChannel/NewsChannel.c:732-862 | two runs, of whichever variants, that consumed the same bytes delivered the same messages |
| Reassembler.FillNeverExceedsMessage | NewsChannel/NewsChannel.c:736-815 | in every run the fill count stays within header plus body, hence within the buffer |
| Reassembler.RoundProgresses | NewsChannel/NewsChannel.c:732-862 | a round in which recv does not block gets closer to the end of the stream |
| Reassembler.RoundsDrain | NewsChannel/NewsChannel.c:732-967 | enough such rounds read the whole stream and deliver every message in it |
| Reassembler.StepAccounts | NewsChannel/NewsChannel.c:732-862 | every event keeps the account of where each consumed byte is |
| Reassembler.UsrChannel.PickPackageOfClient | NewsChannel/NewsChannel.c:732-862 | the code, on the channel's fields and buffer, makes the modelled step for both variants |
| Reassembler.UsrChannel.ReceiveHeader | NewsChannel/NewsChannel.c:736-773 | the header branch |
| Reassembler.UsrChannel.ReceiveBody | NewsChannel/NewsChannel.c:818-859 | the body branch |
| Reassembler.UsrChannel.HandleMessage | NewsChannel/NewsChannel.c:951-961 | a complete message is handed on once and the fill count starts again |
| ChannelTable.NextKeepsSound | NewsChannel/NewsChannel.c:363-640 | every operation keeps: no descriptor in two slots, no declaration in two slots |
| ChannelTable.EveryRunIsSound | NewsChannel/NewsChannel.c:363-640 | so it holds in every state of every run of accepts, declarations, heartbeats, closes and expiries |
| ChannelTable.EventsOpenAndClose | NewsChannel/NewsChannel.c:363-640 | what every event closes, exactly: the slot it names, all of a user, the first that carries the declaration, all of users whose control channel is silent; it opens none but the first free slot at an accept |
| ChannelTable.AddFailsOnlyWhenFull | NewsChannel/NewsChannel.c:379-388 | an accept puts the descriptor in the table if and only if a slot is free, and keeps the others |
| ChannelTable.DeclarationClosesTheFirst | NewsChannel/NewsFilter.c:249-278 | every declaration: exactly the first slot that carried it is cleared, the current one takes it, with its direction, and is still open, with its descriptor, unless it was that slot; others are untouched |
| ChannelTable.DeclarationIsUnique | NewsChannel/NewsFilter.c:249-278 | after a declaration other than (0, 0) the channel alone carries it |
| ChannelTable.DeclarationClosesAnother | NewsChannel/NewsFilter.c:249-254 | an open channel of another client is closed if and only if it is the first slot that carries the declaration |
| ChannelTable.NobodyClosesTheFirst | NewsChannel/NewsFilter.c:249-254 | so the declaration (0, 0) closes the undeclared connection in slot 0 |
| ChannelTable.ExpiryIsComplete | NewsChannel/NewsChannel.c:1033-1050 | expiry closes exactly the channels of users with an expired control channel; none is left, and a second pass changes nothing |
| ChannelTable.WithoutControlNothingExpires | NewsChannel/NewsChannel.c:1033-1050 | the channels of a user without a control channel survive any number of expiries |
| ChannelTable.SilentTableStaysFull | NewsChannel/NewsChannel.c:683-712 | a full table of such channels keeps its descriptors and refuses every accept, through any run of accepts, heartbeats and expiries, until a client closes or declares a channel |
| ChannelTable.NewsChannel.ChannelClose | NewsChannel/NewsChannel.c:603-614 | clears one slot and gives up its descriptor, and no other |
| ChannelTable.NewsChannel.UsrInfoAdd | NewsChannel/NewsChannel.c:363-388 | the first free slot takes the descriptor, cleared; -1 and no change if there is none |
| ChannelTable.NewsChannel.AcceptClient | NewsChannel/NewsChannel.c:683-712 | the descriptors held remain exactly those in the table, also when the table is full |
| Heartbeats.TimeIsLastHeard | NewsChannel/NewsFilter.c:303-357 | in every run the time recorded of an open channel is that of its accept or of its newest heartbeat |
| Heartbeats.ExpiryClosesTheSilent | NewsChannel/NewsChannel.c:1033-1050 | over whole runs: an expiry closes an open channel if and only if a control channel of its user, itself included, has had neither an accept nor a heartbeat for more than 120 seconds |
| Heartbeats.LivelyUserIsNeverExpired | NewsChannel/NewsChannel.c:1033-1050 | a user whose control channels have all been heard in the last 120 seconds at every expiry never loses a channel to one |
| ChannelTable.NewsChannel.TouchChannel | NewsChannel/NewsFilter.c:303-325 | a heartbeat sets the time of its channel and nothing else |
| ChannelTable.NewsChannel.DeclareChannel | NewsChannel/NewsFilter.c:249-278 | the channel found first is closed and the current one takes the declaration |
| ChannelTable.NewsChannel.CloseChannelsByUsrName | NewsChannel/NewsChannel.c:625-640 | closes exactly the open channels with the name the record had at entry, though the record is itself cleared on the way |
| ChannelTable.NewsChannel.TimeOutHandler | NewsChannel/NewsChannel.c:1033-1050 | the nested loops close exactly the doomed channels and leave the rest as they were |
| Adpcm.ImaTableIsGood | Audio/adpcm_zl.c:10-18 | the step table rises from 7 to 32767 by at most a seventh at a time |
| Adpcm.StepsGrowByATenth | Audio/adpcm_zl.c:10-18 | each step but the last is 1.1 times the one before, to within one |
| Adpcm.QuantiserError | Audio/adpcm_zl.c:35-41 | below twice the step the rebuilt difference is within step/8 above and step/8 + 2 below |
| Adpcm.Table.RebuiltIsClose | Audio/adpcm_zl.c:20-65 | a sample that does not overload the step is rebuilt to within step/8 + 2 |
| Adpcm.Table.OverloadedMoves | Audio/adpcm_zl.c:20-65 | one that does moves the predictor at least 12 towards it without passing it, and the index up by 8 |
| Adpcm.Table.StaysInRange | Audio/adpcm_zl.c:20-65 | with the input held, overload does not return |
| Adpcm.Table.AtMostElevenOverloads | Audio/adpcm_zl.c:20-65 | with the input held, from any state, at most 11 samples are overloaded, all at the start |
| Adpcm.ElevenHappens | Audio/adpcm_zl.c:20-65 | from the bottom of the range to the top eleven are |
| Adpcm.Table.SampleMoves | Audio/adpcm_zl.c:8-65 | a sample q quarters of a step away is coded as q and its sign; the index falls by one below four quarters, and from four to seven rises by 2, 4, 6, 8; the predictor moves by q quarters and an eighth |
| Adpcm.Table.HeldInputFalls | Audio/adpcm_zl.c:20-65 | with the input held, from any state, from the thirteenth sample on every sample lowers the index by one until it is 0 and rebuilds the input to within step/8 + 2 |
| Adpcm.Table.HeldInputSettles | Audio/adpcm_zl.c:20-65 | after 101 samples the step is the smallest and the error at most 2 |
| Adpcm.Table.DecoderFollowsEncoder | Audio/adpcm_zl.c:20-144 | decoding the packed nibbles reproduces the encoder's state after every sample |
| Adpcm.UnpackPack | Audio/adpcm_zl.c:67-95 | two nibbles a byte, high half first, and back |
| Adpcm.HighHalfIsFirst | Audio/adpcm_zl.c:67-73 | the first of two nibbles is the high half of the byte |
| Adpcm.PutAllPlaces | Audio/adpcm_zl.c:120-132 | the k-th write is at the k-th place of the circular output and nothing else changes |
| Adpcm.DecodedPackageIsInPlace | Audio/adpcm_zl.c:77-144 | every rebuilt sample of a package is at two consecutive places of the circular output |
| Adpcm.Coder.AdpcmEncode | Audio/adpcm_zl.c:20-75 | one sample: the new state, and the nibble in its half of the byte |
| Adpcm.Coder.EncodePackage | Audio/Audio.c:407-491 | the capture loop leaves the encoder's last state and the packed nibbles in the slot |
| Adpcm.Coder.AdpcmDecode | Audio/adpcm_zl.c:77-144 | the nibble loop leaves the decoder's last state and every value written twice |
| AudioRing.WriteKeepsRing | Audio/Audio.c:514-537 | every store of the capture thread keeps the newest 749 counted packages in their slots |
| AudioRing.FetchedSlotIsRight | Audio/Audio.c:683-694 | in every interleaving: the fourth load takes a slot exactly if the index is at most 749 behind the count or equal to it; the slot holds the package with that index in the current epoch if and only if the index is below the count and the ring is not erased; one below is never the slot being filled, one equal always is |
| AudioRing.PackageStaysForALap | Audio/Audio.c:514-537 | a package stays in its slot until 749 more are counted; after that the slot holds a later one, or is the next to be filled |
| AudioRing.RewindExactly | Audio/Audio.c:671-682 | the second look answers "go back" exactly for index -1, an index two or more ahead, or one the count has passed meanwhile |
| AudioRing.LookTwiceRace | Audio/Audio.c:671-682 | a package published between the two looks of a waiting fetch sends the sender back to index 0 |
| AudioRing.SendsAgainFromZero | AudioSend/AudioSend.c:228-275 | and then the first package of the epoch goes out again, unless the count is 749 or more |
| AudioRing.ThirdLoadRace | Audio/Audio.c:671-697 | a wrap or reset before the third load makes the sender send what it last pointed at, under the next serial |
| AudioRing.FourthLoadRace | Audio/Audio.c:683-694 | a count that equals the index at the fourth load makes it send the slot being filled |
| AudioRing.FifthLoadRace | Audio/Audio.c:690-697 | an answer the sender has no case for makes it send without advancing, under the serial before |
| AudioRing.ResetRace | Audio/Audio.c:601-629 | a stop between the third and the fourth load makes it send a blank slot as package 0 of the new life |
| AudioRing.TornRace | Audio/Audio.c:683-694 | the fourth-load race while the slot is being filled sends a torn slot |
| AudioRing.StoppedGetsNothing | Audio/Audio.c:653-670 | while the capture is stopped a fetch gets nothing and the index stays |
| AudioRing.CalmIsExact | AudioSend/AudioSend.c:228-275 | between any two steps, a store is calm if and only if the sender going on alone from there never goes back in the epoch, sends out of order, under a wrong serial, or what is no package yet |
| AudioRaces.EveryExceptionIsMet | AudioSend/AudioSend.c:228-275 | for each store that Calm excepts, at each load, a calm run from power-on leads to it |
| AudioRing.CalmWriteKeepsSender | Audio/Audio.c:514-537 | every calm store of the capture thread keeps the sender ahead of everything it sent in the epoch |
| AudioRing.ReadKeepsSender | AudioSend/AudioSend.c:228-275 | so does every step of the sender |
| AudioRing.SentInOrder | AudioSend/AudioSend.c:228-275 | in every calm run packages go out in strict order of life, epoch and index, with the next index as serial; neighbours are adjacent unless the sender jumped or the epoch changed |
| AudioRing.JumpsOnlyWhenFarBehind | AudioSend/AudioSend.c:242-245 | a jump is made exactly when 749 or more behind, and lands on the count |
| AudioRing.GoesBackOnlyToALaterEpoch | AudioSend/AudioSend.c:231-234 | in a calm run the index goes back only when nothing has gone out in the epoch, and only to 0 |
| AudioRing.CopyIsRight | AudioSend/AudioSend.c:270-275 | the bytes copied are the package fetched if fewer than 750 were counted after it and there was no reset |
| AudioRing.AudioCapture.CaptureOnePakageAudioData | Audio/Audio.c:514-537 | one package: the ring steps in sequence, and byteWrite is again iWriteCount modulo 750 |
| AudioRing.AudioCapture.StopAudioCapture | Audio/Audio.c:601-629 | a stop erases the ring and starts a new life |
| AudioRing.AudioCapture.GetAudioFrameWithWantedIndex | Audio/Audio.c:653-698 | undisturbed: -1, -3, -2 or the distance, and the wanted package if it is in the ring |
| AudioRing.AudioSend.SendRound | AudioSend/AudioSend.c:228-275 | an undisturbed round: what goes out, its serial, and the next index, case by case |
| AlarmBlocks.LatestBlockIsLatest | Audio/Audio.c:700-715 | the block ends less than a block before the newest sample and stays the same until the next is full |
| AlarmBlocks.AudioCapture.StoreSample | Audio/Audio.c:472-486 | every sample of the current and the four previous blocks is in its cell |
| AlarmBlocks.AudioCapture.CapturePackage | Audio/Audio.c:407-491 | so after any number of packages of any length |
| AlarmBlocks.AudioCapture.GetAlarmAudioFrame | Audio/Audio.c:700-715 | the block returned is the latest complete run of 1024 samples of the stream |
| AlarmBlocks.AudioCapture.BlockStays | Audio/Audio.c:700-715 | it stays whole while fewer than four more blocks are completed |
| UsbSwitch.NextKeepsInv | IOCtl/ioctl.c:1383-2199 | every tick and command keeps: an active switch heads away from the linked side, no counter passes its target, idle means the multiplexer is on the linked side with power; the multiplexer moves only while the power is off |
| UsbSwitch.RunKeepsInv | IOCtl/ioctl.c:1939-2199 | so in every run with calls failing and commands arriving at any point |
| UsbSwitch.TickProgresses | IOCtl/ioctl.c:1939-2199 | every tick brings the end one nearer unless its driver call fails |
| UsbSwitch.SwitchEndsExactly | IOCtl/ioctl.c:1939-2199 | a switch that no command restarts ends after its remaining ticks and the failed calls, exactly, on the other side |
| UsbSwitch.StartTakes46 | IOCtl/ioctl.c:1383-1414 | a command to the side that is not linked, idle or during a switch, has multiplexer and link on that side, with power, after 46 ticks and the failed calls, and not before; a repeated one starts the 46 again |
| UsbSwitch.OtherCommandsAreIgnored | IOCtl/ioctl.c:1383-1414 | a command to the linked side, or of another kind, changes nothing |
| UsbSwitch.CommandBackIsLost | IOCtl/ioctl.c:1388-1408 | a command back to the linked side during a switch has no effect on where it ends |
| UsbSwitch.IoCtl.UsbSwitchMsgHandler | IOCtl/ioctl.c:1383-1414 | the command handler |
| UsbSwitch.IoCtl.UsbSwitchControl | IOCtl/ioctl.c:1939-2199 | both written-out directions make the one modelled tick |
| DhcpRetry.IterateKeepsInv | NetWorkSet/networkset.c:508-626 | every pass, whatever it finds, keeps every wait counter at or below the value that ends the wait |
| DhcpRetry.RunKeepsInv | NetWorkSet/networkset.c:508-626 | so in every run |
| DhcpRetry.WirelessResetsExactly | NetWorkSet/networkset.c:568-616 | a wireless set-up without an address resets exactly when its count of passes runs out, not before |
| DhcpRetry.LoginToReset | NetWorkSet/networkset.c:514-531 | from the login that is three rounds of 139 passes and a check of 11 |
| DhcpRetry.SlowDhcpResets | NetWorkSet/networkset.c:580-588 | when DHCP takes over 45 seconds it resets at the end of the round instead |
| DhcpRetry.WiredRetriesForever | NetWorkSet/networkset.c:578-616 | a wired set-up never resets and makes a round every 139 passes |
| DhcpRetry.AddressEndsSetUp | NetWorkSet/networkset.c:536-560 | the address is looked for at the 11th, 27th, 63rd and 139th pass of a round; if it is there, and only then, the set-up is over |
| DhcpRetry.SetUpStays | NetWorkSet/networkset.c:400-446 | and stays so until a message, which a wired network ignores |
| DhcpRetry.MessageStarts | NetWorkSet/networkset.c:1463-1510 | a message starts from scratch: with a login, or wired, the same pass gets to DHCP; an unknown type ends it |
| DhcpRetry.SetUpTakesEleven | NetWorkSet/networkset.c:400-446 | a set-up in which all goes well takes exactly eleven passes |
| DhcpRetry.FailingLoginPass | NetWorkSet/networkset.c:2320-2357 | attempts of 41 passes follow each other and the failure is reported at the 164th pass only |
| DhcpRetry.FourAttemptsTryAll | NetWorkSet/networkset.c:2394-2419 | any four attempts in a row try all four kinds, the first four from the strongest to the weakest, while the count is in the int range |
| DhcpRetry.NetWorkSet.NetWorksetMsgHandler | NetWorkSet/networkset.c:1463-1510 | a set-up message starts from a clean state unless the network is wired |
| DhcpRetry.NetWorkSet.CheckWifiLoginStatus | NetWorkSet/networkset.c:2320-2357 | one look at the login |
| DhcpRetry.NetWorkSet.CheckDhcpSetResult | NetWorkSet/networkset.c:508-626 | one look at the address, with both resets and what they leave behind |
| DhcpRetry.NetWorkSet.Loop | NetWorkSet/networkset.c:400-446 | one pass of the thread loop |
| UrlCodec.DecodeEncode | HTTPServer/tools.c:93-187 | decoding undoes encoding for every 7-bit string, NULs included |
| UrlCodec.DecodesEveryEncoding | HTTPServer/tools.c:141-187 | every encoding of any bytes, escaping what it likes in digits of either case, is decoded (section 2.1 of RFC 3986) |
| UrlCodec.EncodeIsFrugal | HTTPServer/tools.c:93-139 | what is written is such an encoding, and exactly the characters that are neither unreserved nor spaces are escaped |
| UrlCodec.EncodedIsSafe | HTTPServer/tools.c:93-139 | the encoded text holds only letters, digits, three marks, plus signs and complete escapes in lower case |
| UrlCodec.DecodeFixes | HTTPServer/tools.c:141-187 | text decodes to itself exactly if it has no plus sign and no escape |
| UrlCodec.URLEncode | HTTPServer/tools.c:93-139 | the loop writes the encoded text, at most three times as long, and a zero |
| UrlCodec.URLDecode | HTTPServer/tools.c:141-187 | in place: the decoded text, its length and a zero; writing never overtakes reading and nothing behind the text changes |
| UrlCodec.EncodeThenDecode | HTTPServer/tools.c:93-187 | the two methods after each other give the string and its length back |
| LineBreaks.OthersAreKept | HTTPServer/tools.c:41-69 | the other characters are kept in order, whatever the text |
| LineBreaks.ClearsExactlyWithoutAdjacent | HTTPServer/tools.c:55-66 | all line breaks go if and only if no two are adjacent |
| LineBreaks.RunsAreHalved | HTTPServer/tools.c:55-66 | of a run of line breaks exactly every second one stays |
| LineBreaks.OthersStay | HTTPServer/tools.c:55-66 | text without line breaks stays as it is |
| LineBreaks.ClearCRLF | HTTPServer/tools.c:41-69 | the nested loops leave exactly the modelled text and its terminator |
| Base64.IndexInAlphabet | HTTPServer/encryption.c:40-53 | the search loop finds the first place in the alphabet, or -1 exactly if there is none |
| Base64.AlphabetIsStandard | HTTPServer/encryption.c:31-38 | the table is that of section 4 of RFC 4648, with the padding character behind it |
| Base64.QuadIsTheNumber | HTTPServer/encryption.c:56-125 | four digits to the base 64 are the number that the three octets are to the base 256 |
| Base64.DecodeEncode | HTTPServer/encryption.c:56-125 | decoding the encoding of section 4 of RFC 4648 gives back every non-empty octet string, for all paddings |
| Base64.EncodedShape | HTTPServer/encryption.c:63-74 | and the reported length is its length |
| Base64.HexIsTheNumber | HTTPServer/encryption.c:127-146 | the hexadecimal text stands for the same big-endian number, all digits legal |
| Base64.Base64Decode | HTTPServer/encryption.c:56-125 | the loop leaves the decoded octets, the length and a zero, for any text |
| Base64.Baser64ToHex | HTTPServer/encryption.c:127-146 | appends two upper-case digits per octet to the text that is there |
| LevelQueue.Queue.EnQueue | AudioAlarm/queue.c:81-105 | appends to the sequence with a fresh node, or changes nothing without memory |
| LevelQueue.Queue.DeQueue | AudioAlarm/queue.c:108-128 | drops the first element and frees its node, which no link reaches any more |
| LevelQueue.Queue.ClearQueue | AudioAlarm/queue.c:36-41 | frees exactly the queued nodes, each once |
| LevelQueue.Queue.GetFront | AudioAlarm/queue.c:59-67 | the first element, or failure exactly when there is none |
| LevelQueue.Queue.GetRear | AudioAlarm/queue.c:70-78 | the last element, likewise |
| LevelQueue.Queue.CountAbove | AudioAlarm/handle_audio.c:702-717 | following size links counts the levels above both limits |
| SoundDetector.RunHolds | AudioAlarm/handle_audio.c:666-725 | after any run the window is the newest fifteen levels since the last alarm, and the environment is the number, sum and mean of the quiet levels |
| SoundDetector.AlarmExactly | AudioAlarm/handle_audio.c:666-725 | the alarm is raised exactly when enough of that window is above both limits |
| SoundDetector.AlarmMeans | AudioAlarm/handle_audio.c:690-725 | in plain terms: at least the required count of the last fifteen levels are above the quiet mean by more than the offset, and above 54, or 55 from a mean of 50 on |
| SoundDetector.SensitivityLevels | AudioAlarm/handle_audio.c:164-211 | the nine levels are 0.4 apart in what counts as quiet, and only the last needs a single loud level |
| SoundDetector.MeanIsBetween | AudioAlarm/handle_audio.c:684-688 | the average lies between any bounds of the quiet levels |
| SoundDetector.AlarmsAreApart | AudioAlarm/handle_audio.c:719-723 | any two alarms are at least the required count of levels apart |
| SoundDetector.SensitivityIsMonotone | AudioAlarm/handle_audio.c:164-211 | for the same window and average a more sensitive level alarms whenever a less sensitive one does; over a run the level also decides which levels count into the average |
| SoundDetector.Detector.AlgSoundDection | AudioAlarm/handle_audio.c:666-725 | one call on the variables and the linked queue makes the modelled step |

## Left out

- Rounding: floats and doubles are reals, and the conversion of the frequency change to an int is taken not to overflow.
- NTP debug printing, the accept and reject tests of `rfc1305print` and the stubs that read and set the kernel frequency.
- Reassembler: hard `recv` errors, where the close falls through into the byte count, and the two handlers that use the receive buffer for sending.
- ChannelTable: the refusal of a declaration that was not verified, which changes nothing in the table; the speaker notice on closing an audio channel; close-all. One pass of a handler reads one time.
- ChannelTable.NewsChannel.DeclareChannel: models the table only; the reply to the client is not part of this model.
- AudioRing: stopping only the encoder, the close after an error and a stop that fails half-way, each of which resets one counter without the other, or neither. The three tests at the start of the fetch are one load.
- AudioRing.AudioCapture.GetAudioFrameWithWantedIndex: the method runs undisturbed; the interleaved fetch is `AudioRing.Read`.
- AlarmBlocks: samples skipped by the device; the stream is what was delivered.
- UsbSwitch: the direct switch handler and the power-on in the port monitor, which drive the hardware outside the sequence; what is probed and reported when a switch is over; a failed driver call is taken to leave the hardware alone.
- DhcpRetry: static addresses, the connection states after an address arrived, the wifi list and the popen calls. An unknown network type in a set-up message is modelled.
- UrlCodec.URLEncode: for 7-bit text only, because the code indexes its digits with a signed char.
- Base64: a failing allocation.
- SoundDetector: a failing allocation in the queue, which the detector does not notice, and the overflow of its two counters after years.
- Sockets, SSL, RSA, MD5, JSON, ALSA, FFT, libusb, I2C and flash; the MFi and Android protocols, HTTPS provisioning, adapters, LED control and the port monitors: byte layouts, oracles or one-branch machines that would add easy members.
- `Child_Process/cmbtable.c` and the spectrum: dead code, and transcendental functions.
