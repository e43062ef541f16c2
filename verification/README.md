# Verified models of libusb 1.0.8 and zadb

This project models the parts of libusb 1.0.8 and of the `zadb` client that are hardest to get
right, and proves what they keep over every run. `dafny verify dfyconfig.toml` checks all of it.

Where the code changes state step by step there are two layers. A state machine, written as
functions, says what one call does to the whole state and carries the theorems over all runs. A
class with the fields, loops and linked nodes of the code is proved, method by method, to take
exactly the steps of that machine.

| files | what they model |
|---|---|
| `Words`, `Usbfs` | machine words, and what bulk and isochronous transfers have in common |
| `SourceNumbers` | the limits and error codes of the source as numbers |
| `BulkUrbs`, `BulkRuns`, `BulkTransfer` | one bulk transfer as many kernel URBs: submission, reaping in order, cancellation, compaction of the data, the single report |
| `IsoPacking`, `IsoUrbs`, `IsoTransfer` | isochronous transfers: two-pass packing, results per packet, the single report |
| `Backends` | either of the two as the generic code sees it |
| `StrandedUrbs`, `FreedUrbs` | when the library reads a URB that it has freed: one bulk transfer, and the whole library |
| `Timeouts`, `FlyingTransfers`, `TransferLayers`, `TransferTimer`, `Cancellation`, `Disconnection`, `Progress`, `Callbacks`, `EventSleep`, `FlyingList` | deadlines, the list of flying transfers as a circular linked list over the backend's transfers, the timerfd, completion and disconnection, and how long event handling sleeps |
| `EventLock`, `EventRuns`, `PollSet` | N threads around the events lock, the waiters' condition variable, the control pipe and the poll set, one access a step |
| `RecordLists`, `Descriptors`, `DescriptorNumbers`, `DescriptorParser` | configuration descriptors (USB 2.0 specification, sections 9.6.3, 9.6.5 and 9.6.6): parser, printer, round trip |
| `DeviceRefs`, `DeviceList` | device discovery, reference counts, handles |
| `Keystrokes`, `KeyQueue` | the key queue of zadb and the commands it becomes |
| `Framing`, `Transport` | ADB packets on a byte pipe |
| `SessionProtocol`, `Session` | one shell session over ADB packets |

Assumptions about the environment are part of the statements: the kernel completes the URBs of a
bulk or isochronous transfer in submission order and never returns more than was asked for; each
call of the transfer layer, the device layer and the zadb session is one atomic step; control-pipe
writes succeed; the reads of a byte pipe are never empty; ADB peers do not use 0xffffffff as an id.

What a C program does once it reads freed memory is undefined, and the library can come to that. The
bulk machine and the transfer layer therefore have an event for being handed a freed URB, after
which any state may follow. A run is called defined below if no such event happens in it.

Some promises do not hold of the code as it is. Each has a theorem that says exactly when it holds:

- a hard error on a bulk URB that is not the last is reported while later URBs can still write the
  buffer (`BulkReportedOnce`, `HardErrorStrandsUrb`); when these come back the library reads them
  from memory it has freed, and if that still holds what it held may report the transfer again
  or count them into its next submission (`FreedUrbComesBackExactly`, `TwoErrorsTwoReports`,
  `ReadsFreedExactly`). It never does where hard errors hit only last URBs
  (`LateErrorsAreHarmless`);
- an isochronous transfer with a length that asks for short transfers to be errors is never
  reported as completed (`IsoCompletedExactly`);
- an isochronous URB that fails shifts the results of all later packets (`ResultsLandOnTheirOwn`);
- isochronous packets longer than 32768 bytes are never submitted (`PackingIsComplete`);
- a deadline whose nanoseconds add up to a whole second is refused by the timerfd: the submission
  is reported as failed though the transfer flies (`FailureReportedThoughFlying`), and a later
  completion or disconnection loses callbacks (`CallbackIsLostExactly`, `DisconnectCompletesExactly`);
- a context that was meant to have a timerfd and could not get one never makes a callback
  (`NoTimerfdNoCallbacks`);
- a timeout of zero, documented as no timeout, keeps an older deadline of the same transfer
  (`ZeroTimeoutIsUnlimited`);
- extra descriptors inside an interface may reach past the end that the configuration claims
  (`OverrunsExactly`);
- typed text with backslashes, dollar signs or backquotes does not always survive the shell
  (`QuotingSurvivesExactly`);
- very long sleeps wrap around in an `int` (`LongSleepsWrap`);
- the comment in the packet handler gives the order of the ids in an OKAY, and later OKAYs are
  compared in the other order (`LaterOkaysAreDropped`).

Lemmas over runs take the list of events from the start, so they speak of every state that a run, or a
defined run, reaches.
Helper lemmas have no row below.

## Model

| member | source | states |
|---|---|---|
| BulkUrbs.UrbsTileTheBuffer | libusb/libusb-1.0-1.0.8/libusb/os/linux_usbfs.c:1354-1391 | The URBs of a bulk transfer cover the buffer without gap or overlap; a zero-length transfer has one empty URB. |
| BulkUrbs.SubmitEstablishes | libusb/libusb-1.0-1.0.8/libusb/os/linux_usbfs.c:1393-1448 | Every successful submission, complete or cut short by a URB the kernel refuses, starts in a state that satisfies the invariant below. |
| BulkUrbs.StepKeeps | libusb/libusb-1.0-1.0.8/libusb/os/linux_usbfs.c:1700-1720 | Every kernel completion, reap of a URB not freed, cancellation and timeout keeps the invariant: counts, compacted prefix, data of finished URBs, verdict. |
| BulkRuns.BulkDataNeitherLostNorHoled | libusb/libusb-1.0-1.0.8/libusb/os/linux_usbfs.c:1786-1922 | Over every defined run the buffer starts with the payloads counted so far, in order, their total is at most the offset of the next URB, what the kernel holds for URBs not reaped yet is still where it was put, and every byte from the oldest unreaped URB on that no finished URB wrote is as the user left it. |
| BulkRuns.BulkReportedOnce | libusb/libusb-1.0-1.0.8/libusb/os/linux_usbfs.c:1786-1922 | Over every defined run: retired plus outstanding is the number of URBs, there is at most one report, there is one as soon as nothing is outstanding, and it comes too early if and only if a hard error hit a URB other than the last in normal mode. |
| BulkRuns.CompletionTestsAgree | libusb/libusb-1.0-1.0.8/libusb/os/linux_usbfs.c:1834-1912 | In every state that a defined run reaches the index test of normal mode and the counting test of the other modes fire at the same reap; exactly a hard error in normal mode does not wait for it. |
| BulkRuns.HardErrorStrandsUrb | libusb/libusb-1.0-1.0.8/libusb/os/linux_usbfs.c:1860-1879 | The hard error case occurs: a stall on the first of two URBs is reported while the kernel can still write the buffer. |
| StrandedUrbs.FreedUrbComesBackExactly | libusb/libusb-1.0-1.0.8/libusb/os/linux_usbfs.c:2060-2090 | The library can be handed a URB it has freed if and only if a hard error stranded some: one has finished, or the next may finish now. |
| StrandedUrbs.UndefinedExactly | libusb/libusb-1.0-1.0.8/libusb/os/linux_usbfs.c:2060-2090 | After every defined run a next step is undefined if and only if it reaps a finished URB that a hard error stranded. |
| StrandedUrbs.LateErrorsAreHarmless | libusb/libusb-1.0-1.0.8/libusb/os/linux_usbfs.c:1866-1879 | Where hard errors hit only the last URB every run is defined, whatever else happens. |
| StrandedUrbs.StrandedUrbReportsAgain | libusb/libusb-1.0-1.0.8/libusb/os/linux_usbfs.c:1860-1918 | If the freed memory still holds what it held, a stranded URB that failed hard too makes a second report, in every state with one. |
| StrandedUrbs.TwoErrorsTwoReports | libusb/libusb-1.0-1.0.8/libusb/os/linux_usbfs.c:1860-1918 | Such a run: two URBs, both with a protocol error. |
| BulkRuns.ReportIsFinal | libusb/libusb-1.0-1.0.8/libusb/os/linux_usbfs.c:1786-1922 | After a report with nothing outstanding, no later event changes the data, the length or the report. |
| BulkRuns.BulkStatusIsTruthful | libusb/libusb-1.0-1.0.8/libusb/io.c:1383-1392 | Over every defined run COMPLETED means that the whole buffer was transferred or that a short URB was seen and short transfers are accepted; TIMED_OUT is reported exactly for transfers whose timeout was processed. |
| BulkRuns.BulkReportExactly | libusb/libusb-1.0-1.0.8/libusb/os/linux_usbfs.c:1786-1922 | Over every defined run the one report is an equality: TIMED_OUT after an expiry, CANCELLED after any other cancellation, ERROR after a submission in part; else, unless an earlier URB came short, STALL, OVERFLOW or ERROR for the hard status of the last URB; else COMPLETED, or ERROR where the user does not accept less than the length. CANCELLED or TIMED_OUT if and only if a cancellation or expiry came in flight. |
| BulkRuns.BulkDataExactly | libusb/libusb-1.0-1.0.8/libusb/os/linux_usbfs.c:1820-1856 | Over every defined run the buffer starts with all the payloads that came back, in order; only that of a last URB with an error other than an overflow, in a transfer nobody had given up, is left out. |
| BulkRuns.CancelledUrbsAreDiscarded | libusb/libusb-1.0-1.0.8/libusb/os/linux_usbfs.c:1712-1719 | Over every defined run, once a cancellation or expiry came in flight, each URB not reaped has been discarded until the report. |
| BulkRuns.AbandonedUrbsAreDiscarded | libusb/libusb-1.0-1.0.8/libusb/os/linux_usbfs.c:1896-1908 | Over every defined run, while the library waits for URBs it has given up on, each has been discarded; only after an early completion are those left out that the kernel itself cancels behind a continuation URB. |
| BulkTransfer.BulkTransfer.Submit | libusb/libusb-1.0-1.0.8/libusb/os/linux_usbfs.c:1335-1448 | Splits the transfer and submits the URBs; the new state is `Submitted`, nothing is left behind when the first URB is refused, and URBs stranded by an earlier submission are forgotten. |
| BulkTransfer.BulkTransfer.SubmitUrbs | libusb/libusb-1.0-1.0.8/libusb/os/linux_usbfs.c:1393-1448 | The submission loop: all URBs taken, or those before the refused one discarded and the rest counted as retired. |
| BulkTransfer.BulkTransfer.Cancel | libusb/libusb-1.0-1.0.8/libusb/os/linux_usbfs.c:1700-1720 | Discards every URB and changes the mode, whatever it was; refuses a transfer that is not in flight. |
| BulkTransfer.FlagsStopTheRest | libusb/libusb-1.0-1.0.8/libusb/os/linux_usbfs.c:1383-1397 | By the kernel rule the source documents, a failing URB takes all those behind it along exactly with continuation URBs, never those of an earlier transfer, and a short IN URB counts as failing. |
| BulkTransfer.BulkTransfer.KernelFinishes | libusb/libusb-1.0-1.0.8/libusb/os/linux_usbfs.c:1354-1391 | What the kernel may do at any time: finish a submitted URB and leave its data in the region of that URB. |
| BulkTransfer.BulkTransfer.Memmove | libusb/libusb-1.0-1.0.8/libusb/os/linux_usbfs.c:1820-1832 | Moving a surplus payload down overwrites exactly its target range. |
| BulkTransfer.BulkTransfer.ReapForHandle | libusb/libusb-1.0-1.0.8/libusb/os/linux_usbfs.c:2060-2090 | Taking the oldest finished URB of a transfer in flight from the kernel and handling it is the Reap step of the state machine. |
| BulkTransfer.BulkTransfer.HandleBulkCompletion | libusb/libusb-1.0-1.0.8/libusb/os/linux_usbfs.c:1786-1922 | Both branches together compute the reap step on buffer, counters, mode, discards and report. |
| BulkTransfer.BulkTransfer.AbnormalCompletion | libusb/libusb-1.0-1.0.8/libusb/os/linux_usbfs.c:1803-1848 | The branch for cancelled, completed-early and partly submitted transfers: data kept and compacted, report at the last URB. |
| BulkTransfer.BulkTransfer.NormalCompletion | libusb/libusb-1.0-1.0.8/libusb/os/linux_usbfs.c:1850-1918 | The normal branch: hard errors and the last URB report, a short URB makes the rest be discarded. |
| BulkTransfer.BulkTransfer.CompleteTransfer | libusb/libusb-1.0-1.0.8/libusb/io.c:1383-1397 | The status the callback sees, a short transfer turned into an error where the user asked for that. |
| IsoPacking.CountUrbs | libusb/libusb-1.0-1.0.8/libusb/os/linux_usbfs.c:1473-1488 | The counting loop, with its comparison of a signed space with an unsigned length, computes `NumUrbs`. |
| IsoPacking.FillUrbs | libusb/libusb-1.0-1.0.8/libusb/os/linux_usbfs.c:1502-1551 | The packing loop fills each URB with the packets, their lengths and the buffer address that `Fill` gives. |
| IsoPacking.GetIsoPacketBuffer | libusb/libusb-1.0-1.0.8/libusb/libusb.h:1059-1081 | The address of a packet is the sum of the lengths before it; there is none for a packet that does not exist. |
| IsoPacking.OpensAtEnds | libusb/libusb-1.0-1.0.8/libusb/os/linux_usbfs.c:1476-1487 | For packets of at most 32768 bytes the counting loop opens a new URB exactly where the packing loop ends one. |
| IsoPacking.PackingIsComplete | libusb/libusb-1.0-1.0.8/libusb/os/linux_usbfs.c:1502-1551 | All packets are packed if and only if none is longer than 32768 bytes; then each is in exactly one URB, in order, no URB is over the limit or empty, and each has the buffer address of its first packet and the lengths of all its packets. |
| IsoPacking.NoCutUsesFewer | libusb/libusb-1.0-1.0.8/libusb/os/linux_usbfs.c:1476-1487 | No way of cutting the packets into consecutive parts within the limit has fewer parts than the URBs counted. |
| IsoUrbs.IsoReportedOnce | libusb/libusb-1.0-1.0.8/libusb/os/linux_usbfs.c:1924-2008 | Over every run: retired plus outstanding is the number of URBs, and there is one report exactly when nothing is outstanding, with cancellation and partial submission in any mix. |
| IsoUrbs.IsoStatusIsTruthful | libusb/libusb-1.0-1.0.8/libusb/os/linux_usbfs.c:1962-2000 | The report is a cancellation if and only if the transfer was cancelled before it, else completion for a full and an error for a partial submission. |
| IsoUrbs.ResultsArePacked | libusb/libusb-1.0-1.0.8/libusb/os/linux_usbfs.c:1948-1958 | Over every run the results the user sees are those of the URBs with status zero one after the other, then what was there before; they never run past the descriptors. |
| IsoUrbs.ResultsLandOnTheirOwn | libusb/libusb-1.0-1.0.8/libusb/os/linux_usbfs.c:1948-1958 | In every reachable state the next results go to their own packets if and only if every URB reaped before had status zero. |
| IsoUrbs.EveryPacketHasItsResult | libusb/libusb-1.0-1.0.8/libusb/os/linux_usbfs.c:1924-2008 | When a transfer is reported and no URB failed, each packet of a submitted URB has its own result, and the offset has reached the number of packets if all were submitted. |
| IsoTransfer.IsoTransfer.Submit | libusb/libusb-1.0-1.0.8/libusb/os/linux_usbfs.c:1451-1606 | Counts, fills and submits the URBs; the new state is `Start` of the URBs and the number the kernel took, those taken before a refused one are discarded, and nothing changes on failure of the first or for a busy transfer. |
| IsoTransfer.IsoTransfer.Cancel | libusb/libusb-1.0-1.0.8/libusb/os/linux_usbfs.c:1722-1742 | Discards every URB and is the Cancel step of the state machine, refused once the transfer is not in flight. |
| IsoTransfer.IsoTransfer.CopyResults | libusb/libusb-1.0-1.0.8/libusb/os/linux_usbfs.c:1948-1958 | The copying loop writes the results from the offset on and nothing else. |
| IsoTransfer.IsoTransfer.HandleIsoCompletion | libusb/libusb-1.0-1.0.8/libusb/os/linux_usbfs.c:1924-2008 | Handling a URB is the Reap step; the URBs are freed exactly when the transfer is reported. |
| IsoTransfer.PacketsGetTheirResults | libusb/libusb-1.0-1.0.8/libusb/os/linux_usbfs.c:1451-1606 | End to end: with packets of at most 32768 bytes and all URBs good, the reported transfer has for each packet the result the kernel gave for that packet. |
| Timeouts.DeadlineIsExact | libusb/libusb-1.0-1.0.8/libusb/io.c:1058-1085 | A deadline is exactly the timeout ahead, to the microsecond, and set; its fields are normal if and only if the nanoseconds do not add up to a whole second exactly. |
| Timeouts.FieldOrderIsChronological | libusb/libusb-1.0-1.0.8/libusb/io.c:1117-1121 | Comparing seconds and microseconds never contradicts the clock although the carry test lets a whole second through, and tells equal times apart only in that case. |
| Timeouts.ExpiryIsExact | libusb/libusb-1.0-1.0.8/libusb/io.c:1724-1728 | Against a clock reading, the expiry test says whether the deadline is at or before it. |
| Timeouts.MinusIsExact | libusb/libusb-1.0-1.0.8/libusb/io.c:2132-2138 | The time left is the difference of the two times, positive and set. |
| Timeouts.PollRoundsUp | libusb/libusb-1.0-1.0.8/libusb/io.c:1804-1808 | The poll timeout is the time in milliseconds, rounded up. |
| Timeouts.PollArgumentIsExact | libusb/libusb-1.0-1.0.8/libusb/io.c:1782-1808 | The `int` given to poll is that number of milliseconds if and only if it is below 2^31. |
| FlyingTransfers.Place | libusb/libusb-1.0-1.0.8/libusb/io.c:1112-1129 | The scan finds the first transfer that expires later. |
| FlyingTransfers.InsertKeepsSorted | libusb/libusb-1.0-1.0.8/libusb/io.c:1090-1134 | Inserting keeps the list sorted, soonest first, infinite ones last. |
| FlyingTransfers.FirstIsSoonest | libusb/libusb-1.0-1.0.8/libusb/io.c:1087-1134 | On a sorted list the result 1 means that the deadline is finite and precedes all others. |
| FlyingTransfers.InfiniteOnesComeLast | libusb/libusb-1.0-1.0.8/libusb/libusbi.h:159-163 | Behind an infinite deadline there are only infinite ones, which is what the early exits rely on. |
| FlyingTransfers.DeleteUndoesInsert | libusb/libusb-1.0-1.0.8/libusb/io.c:1232-1238 | A failed submission leaves the list as it was. |
| FlyingTransfers.NextToArmIsLeast | libusb/libusb-1.0-1.0.8/libusb/io.c:1310-1336 | The scan for the next timeout finds the least deadline among finite transfers not timed out, and finds none exactly if there is none. |
| FlyingTransfers.ScanFlagsExactlyTheExpired | libusb/libusb-1.0-1.0.8/libusb/io.c:1696-1736 | The early-exit expiry scan flags what a full filter would: those flagged before and every finite deadline not after now. |
| Backends.SubmitIsSound | libusb/libusb-1.0-1.0.8/libusb/os/linux_usbfs.c:1651-1672 | A submission gives a backend state that satisfies the invariant of its machine, with its URB pointer set exactly if the kernel took a URB. |
| Backends.StepReports | libusb/libusb-1.0-1.0.8/libusb/os/linux_usbfs.c:1786-2008 | A step of the kernel asks for a completion exactly if it clears the URB pointer, reports a timeout exactly if the flag is set, and never sets the pointer again. |
| Backends.CancelKeepsLive | libusb/libusb-1.0-1.0.8/libusb/os/linux_usbfs.c:1700-1784 | Cancellation and expiry leave the URB pointer set, expiry flags just the transfers in flight, and clear_transfer_priv clears the pointer. |
| Backends.DoomedIsCancelled | libusb/libusb-1.0-1.0.8/libusb/os/linux_usbfs.c:1896-1898 | A transfer in flight that was given up stays so, and is reported as timed out if it is flagged and as cancelled if not. |
| Backends.IsoCompletedExactly | libusb/libusb-1.0-1.0.8/libusb/io.c:1383-1397 | Over every run an isochronous transfer is reported as completed if and only if it was submitted in full, not cancelled, and SHORT_NOT_OK is not set with a nonzero length: its bytes are never counted, so it looks short; and the status is an equality: TIMED_OUT or CANCELLED after a cancellation, ERROR after a submission in part or by that rule. |
| TransferLayers.StepKeepsList | libusb/libusb-1.0-1.0.8/libusb/io.c:1218-1258 | Every defined step keeps the list: submission, completion, cancellation, timeout, trigger and disconnection each keep it sorted, without duplicates, and its deadlines comparable. |
| TransferLayers.ListStaysSorted | libusb/libusb-1.0-1.0.8/libusb/libusbi.h:159-163 | The list is sorted in every state that a defined run reaches. |
| TransferLayers.StepKeepsLayers | libusb/libusb-1.0-1.0.8/libusb/io.c:1356-1407 | Every call of the library and every step of the kernel, if defined, keeps list and backend in agreement, transfer by transfer, with the bulk and isochronous machines underneath. |
| TransferLayers.ExpiredAreFlagged | libusb/libusb-1.0-1.0.8/libusb/io.c:1673-1736 | The scan expires in the backend exactly the transfers whose flag it sets. |
| TransferLayers.LayersAgree | libusb/libusb-1.0-1.0.8/libusb/io.c:1356-1407 | Over every defined run a transfer is on the flying list exactly while the URB pointer of its backend data is set, list and backend agree on its flag, and the submissions accepted for it are its callbacks, its lost callbacks and the one in flight. |
| TransferLayers.TimeoutsAreNeverEarly | libusb/libusb-1.0-1.0.8/libusb/io.c:1415-1425 | Over every defined run TIMED_OUT is reported only for transfers that were flagged and whose finite deadline had passed; a flagged one gets that status and no other, disconnection aside. |
| TransferLayers.ZeroTimeoutIsUnlimited | libusb/libusb-1.0-1.0.8/libusb/io.c:1061-1066 | After every defined run a timeout of zero gives an infinite deadline if and only if the transfer never had another timeout before. |
| Progress.SubmissionTakesOff | libusb/libusb-1.0-1.0.8/libusb/io.c:1218-1258 | A submission of which the kernel takes a URB flies, unflagged, with a deadline exact to the microsecond, or the one it had without a timeout, and is accepted; a refused one is not; no other transfer changes. |
| Progress.UrbsAreHandled | libusb/libusb-1.0-1.0.8/libusb/os/linux_usbfs.c:2060-2090 | A URB the kernel finishes is there to be reaped, a reaped one has been handled, and with the last one outstanding the transfer leaves the list. |
| Progress.TimeoutsAreHandled | libusb/libusb-1.0-1.0.8/libusb/io.c:1673-1771 | When timeouts are handled, by poll or by the timerfd, each flying transfer whose deadline has passed is flagged and given up. |
| Cancellation.CancelIsAnswered | libusb/libusb-1.0-1.0.8/libusb/io.c:1274-1288 | Over every defined run, whatever follows, the next report of a flying transfer that was cancelled is CANCELLED, TIMED_OUT or NO_DEVICE, unless that callback is lost for the timer. |
| Callbacks.CallbacksAreExplained | libusb/libusb-1.0-1.0.8/libusb/io.c:1356-1407 | Over every defined run each callback but NO_DEVICE is the report of a run of the bulk or isochronous machine on a request submitted for that transfer, and each flying transfer is in a state of such a run; so all that is proved of those runs holds of the library. |
| FreedUrbs.ReadsFreedExactly | libusb/libusb-1.0-1.0.8/libusb/os/linux_usbfs.c:2060-2090 | After every defined run, a transfer not submitted over outstanding URBs can be handed a freed one if and only if a hard error stranded some and one of them has finished. |
| FreedUrbs.LateErrorsAreHarmless | libusb/libusb-1.0-1.0.8/libusb/os/linux_usbfs.c:1866-1879 | Where hard errors hit only last URBs, every run of the whole library is defined, with any submissions, cancellations, timeouts and disconnections. |
| TransferTimer.TimerAgrees | libusb/libusb-1.0-1.0.8/libusb/io.c:1310-1336 | Over every defined run in which each timerfd_settime succeeds the timerfd is armed to the least pending deadline and disarmed without one, or a timed-out transfer is still flying; no callback is lost. |
| TransferTimer.TimerIsRestored | libusb/libusb-1.0-1.0.8/libusb/io.c:1356-1381 | After such a run every completion, trigger and disconnection of a busy device restores the first of these cases. |
| TransferTimer.CarryingSettles | libusb/libusb-1.0-1.0.8/libusb/io.c:1058-1085 | A condition callers can check: where no submission of a defined run misses the carry, each timerfd_settime succeeds. |
| TransferTimer.SettlesWithoutCarrying | libusb/libusb-1.0-1.0.8/libusb/io.c:1239-1252 | The converse fails: a submission may miss the carry behind a sooner one without any failure. |
| TransferTimer.CallbackIsLostExactly | libusb/libusb-1.0-1.0.8/libusb/io.c:1369-1381 | A completion returns before the callback if and only if the context lacks its timerfd or the first pending deadline has a microsecond field of a whole second. |
| TransferTimer.NoTimerfdNoCallbacks | libusb/libusb-1.0-1.0.8/libusb/io.c:1024-1040 | In a context that could not get a timerfd, though built to use one, no defined run ever makes a callback. |
| TransferTimer.FailureReportedThoughFlying | libusb/libusb-1.0-1.0.8/libusb/io.c:1239-1252 | For every timeout: a submission that the backend took is reported as failed if and only if its deadline, new or left over when the timeout is zero, misses the carry and precedes all others; the transfer keeps flying. |
| TransferTimer.FailureReportedExamples | libusb/libusb-1.0-1.0.8/libusb/io.c:1061-1079 | A timeout of 999 ms one millisecond into a second of the clock is such a case; so is a timeout of zero after such a submission was refused. |
| Disconnection.DisconnectCompletesExactly | libusb/libusb-1.0-1.0.8/libusb/io.c:2269-2307 | The disconnection loop ends having completed exactly the transfers of the handle, in order: the others keep flying in order, and each of the handle's gets its NO_DEVICE callback exactly if the timer can be set for what is left behind it, and loses it otherwise. |
| Disconnection.DisconnectTellsAllOrNone | libusb/libusb-1.0-1.0.8/libusb/io.c:2269-2307 | On a disconnection, where no deadline missed the carry every transfer of the handle gets one NO_DEVICE callback; where the timerfd is missing none does. |
| Disconnection.DisconnectClearsExactly | libusb/libusb-1.0-1.0.8/libusb/io.c:2303-2304 | The backend data is cleared for exactly the transfers of the handle. |
| EventSleep.ScansAgree | libusb/libusb-1.0-1.0.8/libusb/io.c:2107-2130 | The scan of libusb_get_next_timeout, which stops elsewhere, finds the same deadline as the one that arms the timer. |
| EventSleep.SleepBound | libusb/libusb-1.0-1.0.8/libusb/io.c:1882-1901 | Without a timerfd: timeouts are handled at once if and only if a deadline is due; else the sleep is the smaller of the caller's timeout and the time left, rounded up to milliseconds, and zero only if the caller asked for zero. |
| EventSleep.FullSleepFlags | libusb/libusb-1.0-1.0.8/libusb/io.c:1810-1815 | After a full sleep every deadline that was no further away than the sleep is expired and gets flagged. |
| EventSleep.LongSleepsWrap | libusb/libusb-1.0-1.0.8/libusb/io.c:1804-1808 | A caller's timeout of 2147484 seconds becomes a negative, that is endless, poll timeout. |
| FlyingList.ListAdd | libusb/libusb-1.0-1.0.8/libusb/libusbi.h:74-81 | Inserting behind a node makes the ring with the node in that place. |
| FlyingList.ListAddTail | libusb/libusb-1.0-1.0.8/libusb/libusbi.h:83-91 | Inserting in front of a node, or at the end in front of the head. |
| FlyingList.ListDel | libusb/libusb-1.0-1.0.8/libusb/libusbi.h:93-97 | Deleting leaves the ring of the other nodes. |
| FlyingList.Node.constructor | libusb/libusb-1.0-1.0.8/libusb/libusbi.h:69-72 | list_init makes a ring of one. |
| FlyingList.Context.AddToFlyingList | libusb/libusb-1.0-1.0.8/libusb/io.c:1090-1134 | The loop over the linked list does to it what `Insert` says and returns 1 exactly for `First`. |
| FlyingList.Context.ArmTimerfdForNextTimeout | libusb/libusb-1.0-1.0.8/libusb/io.c:1310-1336 | The loop arms the timer to `NextToArm`, leaves it alone without one, and fails without a descriptor or for a deadline the kernel refuses. |
| FlyingList.Context.HandleTransferCompletion | libusb/libusb-1.0-1.0.8/libusb/io.c:1356-1407 | Unlinking, re-arming and the callback are `Complete` on the whole state; the backend data is not touched. |
| FlyingList.Context.HandleUrb | libusb/libusb-1.0-1.0.8/libusb/os/linux_usbfs.c:2060-2090 | A step of the kernel on a URB that is not freed, and the completion the backend asks for, are `HandleUrb` on the whole state. |
| FlyingList.Context.CancelTransfer | libusb/libusb-1.0-1.0.8/libusb/io.c:1274-1288 | Cancelling changes the backend data alone; NOT_FOUND for a transfer without URBs. |
| FlyingList.Context.SubmitTransfer | libusb/libusb-1.0-1.0.8/libusb/io.c:1218-1258 | Deadline, listing, backend and timer are `SubmitTransfer` on the whole state, with the error result of `SubmitReportsError`. |
| FlyingList.Context.HandleTimeoutsLocked | libusb/libusb-1.0-1.0.8/libusb/io.c:1673-1736 | The scanning loop sets the flags of `FlagExpired`, cancels those transfers in the backend, and changes nothing else. |
| FlyingList.Context.HandleTimerfdTrigger | libusb/libusb-1.0-1.0.8/libusb/io.c:1750-1771 | Disarm, handle, re-arm: the Trigger step. |
| FlyingList.Context.GetNextTimeout | libusb/libusb-1.0-1.0.8/libusb/io.c:2085-2148 | The loop finds the time left that `NextTimeout` gives; nothing where a timerfd is in use. |
| FlyingList.Context.FindOnHandle | libusb/libusb-1.0-1.0.8/libusb/io.c:2289-2297 | The inner scan finds the first transfer of the handle. |
| FlyingList.Context.Abandon | libusb/libusb-1.0-1.0.8/libusb/io.c:2303-2304 | The backend frees the URBs first, then the transfer is completed. |
| FlyingList.Context.HandleDisconnect | libusb/libusb-1.0-1.0.8/libusb/io.c:2269-2307 | The outer loop ends, and is `HandleDisconnect` on the whole state. |
| EventLock.StepKeeps | libusb/libusb-1.0-1.0.8/libusb/io.c:1446-1514 | Every single access of every thread keeps the invariant on locks, flags, pipe, poll sets and owed broadcasts. |
| EventRuns.NoLostWakeup | libusb/libusb-1.0-1.0.8/libusb/io.c:1644-1671 | In every interleaving, if a thread sleeps in libusb_wait_for_event, another one still owes a broadcast. |
| EventRuns.BroadcastIsPaid | libusb/libusb-1.0-1.0.8/libusb/io.c:1502-1514 | An owed broadcast stays owed until one is made, and that one wakes every sleeper. |
| EventRuns.HandlingIsExclusive | libusb/libusb-1.0-1.0.8/libusb/io.c:1776-1840 | At most one thread is between copying the poll set and returning; libusb_close removes an fd only while there is none. |
| EventRuns.ControlPipeComesFirst | libusb/libusb-1.0-1.0.8/libusb/io.c:1022-1040 | Slot 0 of the poll set is always the control pipe, also in the copy being polled. |
| EventRuns.PipeCountsModifiers | libusb/libusb-1.0-1.0.8/libusb/core.c:891-929 | The pipe holds one byte for each open or close between its write and its read: the read never blocks, and a polling handler can be woken. |
| EventRuns.NewFdsArePickedUp | libusb/libusb-1.0-1.0.8/libusb/core.c:891-929 | Over every run, if a thread polls without an fd that is in the poll set, a thread that opens it has not got the events lock yet, and it can go on by itself or the polling thread can be woken. |
| EventRuns.HandlersAndWaiters | libusb/libusb-1.0-1.0.8/libusb/io.c:1446-1470 | Over every run: a thread tries to get the events lock if and only if no open or close is under way, and gets it if and only if nobody has it; a waiter sleeps if and only if an open or close is under way or somebody handles events, and a sleeper leaves when its time is up. |
| EventRuns.CompletionsAreAnnounced | libusb/libusb-1.0-1.0.8/libusb/io.c:1400-1407 | A handler that completes a transfer has a broadcast to make and does nothing else until it has made it, which wakes every sleeper. |
| EventRuns.PollReturnsExactly | libusb/libusb-1.0-1.0.8/libusb/io.c:1816-1840 | poll returns for a device event or its timeout, and else if and only if an open or close has written to the control pipe and not read it back. |
| PollSet.PollSetIsConserved | libusb/libusb-1.0-1.0.8/libusb/core.c:885-1057 | Over every run the poll set is the reserved fds, plus one for each open that adds its fd, minus one for each close or disconnection that finds its fd there. |
| PollSet.PollSetMoves | libusb/libusb-1.0-1.0.8/libusb/io.c:2184-2230 | Each step appends one fd, takes one out and leaves the others in order, or changes nothing. |
| PollSet.ClosedIsGone | libusb/libusb-1.0-1.0.8/libusb/core.c:1016-1057 | Over every run no fd is in the poll set twice, and once libusb_close has taken its fd out it is not there, unless another thread is just opening a device with that number. |
| EventRuns.ModifiersAreNeverStuck | libusb/libusb-1.0-1.0.8/libusb/core.c:1016-1057 | While an open or close is under way some thread can move on its own. |
| EventRuns.NoDeadlock | libusb/libusb-1.0-1.0.8/libusb/io.c:1922-1965 | Some thread can move, or one is polling, whenever not all are idle. |
| Descriptors.RejectsExactlyBadLengths | libusb/libusb-1.0-1.0.8/libusb/descriptor.c:114-140 | The loops over extra descriptors fail if and only if, after well-formed non-standard records, a record of impossible length starts inside the remaining bytes. |
| Descriptors.SkipsPast | libusb/libusb-1.0-1.0.8/libusb/descriptor.c:114-140 | Well-formed extra records are stepped over, whatever follows. |
| Descriptors.OverrunsExactly | libusb/libusb-1.0-1.0.8/libusb/descriptor.c:224-245 | Where lengths are not compared with the remaining size, the extras reach past it if and only if well-formed records are followed by one longer than what is left. |
| Descriptors.ParserAlwaysEnds | libusb/libusb-1.0-1.0.8/libusb/descriptor.c:182-314 | The interface loop and the whole parser end for every memory; a setting of length zero makes the loop fail with an I/O error. |
| Descriptors.EndpointRoundTrip | libusb/libusb-1.0-1.0.8/libusb/descriptor.c:77-155 | An endpoint printed with its extras is parsed back with exactly those extras. |
| Descriptors.AltRoundTrip | libusb/libusb-1.0-1.0.8/libusb/descriptor.c:194-302 | An alternate setting is parsed back with its extras and all its endpoints. |
| Descriptors.InterfaceRoundTrip | libusb/libusb-1.0-1.0.8/libusb/descriptor.c:182-314 | Consecutive alternates are grouped into one interface, which ends where a setting with number zero begins. |
| Descriptors.ParserUndoesPrinter | libusb/libusb-1.0-1.0.8/libusb/descriptor.c:329-421 | For every well-formed configuration, in memory of any other contents and either byte order, parsing its serialization yields the same tree and uses its whole length. |
| Descriptors.PrintingIsInjective | libusb/libusb-1.0-1.0.8/libusb/descriptor.c:329-421 | Two well-formed configurations with the same bytes are the same. |
| DescriptorNumbers.StandardInNumbers | libusb/libusb-1.0-1.0.8/libusb/libusb.h:111-125 | Descriptor types 1, 2, 4 and 5 and no others end a run of extra descriptors. |
| DescriptorNumbers.ExtrasInNumbers | libusb/libusb-1.0-1.0.8/libusb/descriptor.c:114-140 | For any memory the extras are of length n if and only if they are records of other types of that length, each of at least two bytes, behind which too little is left or a standard one follows. |
| DescriptorNumbers.EndpointInNumbers | libusb/libusb-1.0-1.0.8/libusb/descriptor.c:77-155 | For any memory: type 5 and at least seven bytes give an endpoint whose address, attributes, packet size, interval, refresh and synch address are bytes 2, 3, 4 and 5, 6, 7 and 8; fewer bytes give an empty one, another type none, and a length beyond the size an error. |
| DescriptorNumbers.SettingInNumbers | libusb/libusb-1.0-1.0.8/libusb/descriptor.c:194-296 | For any memory with good extras a setting has its nine bytes as fields and as many endpoints as byte 4 says, none if a descriptor of type 1 or 2 follows; more than 32 are an error, and up to 32 it is parsed exactly if they are. |
| DescriptorNumbers.AlternatesInNumbers | libusb/libusb-1.0-1.0.8/libusb/descriptor.c:299-305 | Another setting belongs to the interface if and only if nine bytes are left, its type is 4 and its number is not 0. |
| DescriptorNumbers.ConfigurationInNumbers | libusb/libusb-1.0-1.0.8/libusb/descriptor.c:329-421 | For any memory a configuration has its nine bytes as fields, as many interfaces as byte 4 says and the first non-empty run of extras; more than 32 interfaces are an error, and up to 32 it is parsed exactly if they are. |
| DescriptorNumbers.TreesInNumbers | libusb/libusb-1.0-1.0.8/libusb/descriptor.c:329-421 | The trees of the round trip are those of types 2, 4 and 5 with lengths 9, 9 and 7 or 9, numbered settings and at most 32 parts. |
| RecordLists.ManyUndoesPrintMany | libusb/libusb-1.0-1.0.8/libusb/descriptor.c:272-296 | Parsing a counted list of records undoes printing them end to end, if each record can be parsed back in front of what may follow it. |
| RecordLists.ChainUndoesPrintMany | libusb/libusb-1.0-1.0.8/libusb/descriptor.c:195-306 | The same for a list that goes on as long as the next record belongs to it. |
| DescriptorParser.ParseDescriptor | libusb/libusb-1.0-1.0.8/libusb/descriptor.c:41-69 | The format loop reads byte and word fields from consecutive places and returns the width read. |
| DescriptorParser.SkipExtra | libusb/libusb-1.0-1.0.8/libusb/descriptor.c:114-140 | The loop over class- and vendor-specific descriptors computes `Descriptors.SkipExtra`. |
| DescriptorParser.ParseEndpoint | libusb/libusb-1.0-1.0.8/libusb/descriptor.c:77-155 | Computes `Descriptors.ParseEndpoint` for any memory contents. |
| DescriptorParser.ParseEndpoints | libusb/libusb-1.0-1.0.8/libusb/descriptor.c:260-296 | The endpoint loop is the counted repetition of the endpoint parser. |
| DescriptorParser.ParseAlternate | libusb/libusb-1.0-1.0.8/libusb/descriptor.c:195-297 | One round of the interface loop computes `Descriptors.ParseAlt`. |
| DescriptorParser.ParseInterface | libusb/libusb-1.0-1.0.8/libusb/descriptor.c:182-314 | The interface loop computes `Descriptors.ParseInterface` for any memory contents. |
| DescriptorParser.ParseInterfaces | libusb/libusb-1.0-1.0.8/libusb/descriptor.c:359-408 | The configuration loop, which keeps the first non-empty run of extra bytes. |
| DescriptorParser.ParseConfiguration | libusb/libusb-1.0-1.0.8/libusb/descriptor.c:329-421 | Computes `Descriptors.ParseConfiguration` for any memory contents. |
| DeviceRefs.SessionIdsDiffer | libusb/libusb-1.0-1.0.8/libusb/os/linux_usbfs.c:797-801 | Session ids are equal exactly for the same bus and address. |
| DeviceRefs.EnumerateKeeps | libusb/libusb-1.0-1.0.8/libusb/os/linux_usbfs.c:786-832 | Enumerating a device keeps counts and references in agreement: a known one is shared, a new one is kept by the discovery list alone or dropped again. |
| DeviceRefs.GetListKeeps | libusb/libusb-1.0-1.0.8/libusb/core.c:591-629 | A listing adds exactly one reference for each entry of the list handed out, and each entry has the session id of the device met there. |
| DeviceRefs.FailedListingChangesNothing | libusb/libusb-1.0-1.0.8/libusb/core.c:604-608 | A listing that fails leaves the context's list of devices, with all counts, as it was, and its error is that of a device met on the way. |
| DeviceRefs.FreeingUndoesListing | libusb/libusb-1.0-1.0.8/libusb/core.c:638-655 | Freeing a list together with its references undoes the listing. |
| DeviceRefs.ReferencesAreConserved | libusb/libusb-1.0-1.0.8/libusb/core.c:800-836 | Over every run of list, free, ref, unref, open and close: each count is the number of references held, a device is listed exactly while there is one, and session ids are unique. |
| DeviceRefs.CallsMoveReferences | libusb/libusb-1.0-1.0.8/libusb/core.c:591-655 | Each call changes the references its caller owns, and the handles, as it should: by the entries of a listing, one reference, or one handle. |
| DeviceRefs.NothingLeaks | libusb/libusb-1.0-1.0.8/libusb/core.c:813-836 | When all references are given back and all handles closed, no device is left. |
| DeviceRefs.ListingsShareDevices | libusb/libusb-1.0-1.0.8/libusb/core.c:554-571 | In every reachable state, a listing that meets a device already known hands out that very device. |
| DeviceList.DiscoveredDevs.Append | libusb/libusb-1.0-1.0.8/libusb/core.c:460-485 | Appending grows the array by eight places when full and keeps what was discovered. |
| DeviceList.Context.RefDevice | libusb/libusb-1.0-1.0.8/libusb/core.c:800-806 | One more reference; nothing else changes. |
| DeviceList.Context.UnrefDevice | libusb/libusb-1.0-1.0.8/libusb/core.c:813-836 | One reference less; the last takes the device off the list. |
| DeviceList.Context.AllocDevice | libusb/libusb-1.0-1.0.8/libusb/core.c:499-522 | A new device at the front of the list, with its caller's reference. |
| DeviceList.Context.GetDeviceBySessionId | libusb/libusb-1.0-1.0.8/libusb/core.c:554-571 | The loop finds the first device with the session id, if there is one. |
| DeviceList.Context.EnumerateDevice | libusb/libusb-1.0-1.0.8/libusb/os/linux_usbfs.c:786-832 | The new state is `Enumerate` of the old one. |
| DeviceList.Context.ScanDevices | libusb/libusb-1.0-1.0.8/libusb/os/linux_usbfs.c:993-1024 | The scanning loop is `Scan`: it ends at the first failure. |
| DeviceList.Context.GetDeviceList | libusb/libusb-1.0-1.0.8/libusb/core.c:591-629 | The new state, the list and the error code are those of `GetList`. |
| DeviceList.Context.FreeDeviceList | libusb/libusb-1.0-1.0.8/libusb/core.c:638-655 | Gives up the references of a list if asked to. |
| DeviceList.Context.Open | libusb/libusb-1.0-1.0.8/libusb/core.c:857-888 | The handle adds a reference; a device that cannot be opened gets it back and nothing changes. |
| DeviceList.Context.Close | libusb/libusb-1.0-1.0.8/libusb/core.c:983-993 | Takes any open handle off the list and gives up its reference. |
| Keystrokes.KeysAreNotConfused | zadb/src/keycode.c:71-133 | A keystroke tells which terminal sequence it came from: no two keys get the same code. |
| Keystrokes.KeysAreTheseCodes | zadb/src/keycode.c:71-169 | The accepted sequences and their codes as a table: bytes 0x21 to 0x7e are text, ten sequences are keys, nothing else is accepted. |
| Keystrokes.DigitsAreDecimal | zadb/src/keycode.c:171-179 | The number in a key command is the key code in decimal. |
| Keystrokes.AddAppends | zadb/src/keycode.c:135-169 | Adding a terminal sequence appends the keystroke it stands for, if any, to those queued, whether or not it joins the last node. |
| Keystrokes.QueueIsLossless | zadb/src/keycode.c:135-233 | Over every interleaving of typing and sending, what was sent followed by what is queued is what was accepted, in order. |
| Keystrokes.NodesAreGood | zadb/src/keycode.c:135-151 | Over every run text nodes hold 1 to 100 printable characters with a percent sign only at the end, sent ones included. |
| Keystrokes.CommandsFit | zadb/src/keycode.c:171-205 | Every command ever sent fits its buffer. |
| Keystrokes.QuotingSurvivesExactly | zadb/src/keycode.c:181-205 | A shell that reads the quoted text by the rules of POSIX gets the typed text up to the closing mark if and only if that text has no dollar sign or backquote and no backslash before a quotation mark, a backslash or its end. |
| Keystrokes.TextCommandInWords | zadb/src/keycode.c:181-205 | A text command is the words `input text`, a quotation mark, and what a shell reads as just that text, if it is plain, with nothing but the end of a line behind it. |
| Keystrokes.KeyCommandInWords | zadb/src/keycode.c:171-179 | A key command is the words `input keyevent`, the code in decimal digits, and the end of a line. |
| KeyQueue.KeyQueue.Append | zadb/src/keycode.c:42-52 | Linking a node behind the last one. |
| KeyQueue.KeyQueue.Get | zadb/src/keycode.c:54-60 | A zeroed node is queued at once. |
| KeyQueue.KeyQueue.AddKeylist | zadb/src/keycode.c:135-169 | Updates at most the last node or adds one; the queue becomes `Add` of the old one. |
| KeyQueue.KeyQueue.SendCommand | zadb/src/keycode.c:207-233 | Takes the first node off and sends its command; that node is no longer reachable from the queue and is not written. |
| KeyQueue.SetKeyEvent | zadb/src/keycode.c:171-179 | The command of a special key, with both zero bytes behind it, built in a buffer of 40 characters that it never leaves. |
| KeyQueue.SetText | zadb/src/keycode.c:181-205 | The quoted text, built in a buffer of 240 characters that it never leaves. |
| Framing.WiresLittleEndian | zadb/src/transport_usb.c:29-50 | A word fixed before it is written is little-endian on the wire, whatever the host. |
| Framing.UnwiresLittleEndian | zadb/src/transport_usb.c:29-50 | A word fixed after it is read is the little-endian word of the wire, whatever the host. |
| Framing.SumDoesNotWrap | zadb/src/transport_z.c:24-30 | The checksum of a payload of at most 4096 bytes is the plain sum. |
| Framing.ChecksumSeesOneByte | zadb/src/transport_z.c:177-194 | Any change of one payload byte changes the checksum. |
| Framing.WireInNumbers | zadb/src/transport_z.c:17-43 | On the wire, whatever the host, a sealed packet is command, both arguments, length, sum of the payload and all ones minus the command, each lowest byte first, and then the payload. |
| Framing.ReadsWhatIsThere | zadb/src/usb_libusb.c:177-206 | However the bus cuts the stream, as long as no piece is empty, a read returns the bytes that are there. |
| Framing.PacketRoundTrip | zadb/src/transport_usb.c:52-98 | A packet written by a host of either endianness is read back, all checks passed, by a host of either. |
| Framing.FramingRoundTrip | zadb/src/transport_usb.c:52-98 | The same for every sequence of packets, with nothing left over. |
| Framing.AcceptedPacketsAreWire | zadb/src/transport_z.c:161-194 | Whatever bytes arrive, an accepted packet is one that could have been sent, and the bytes read are its serialization. |
| Transport.UsbWrite | zadb/src/usb_libusb.c:136-175 | Writes all bytes in pieces of at most 4096; an empty transfer follows exactly for zero mask 1 and an even length. |
| Transport.UsbRead | zadb/src/usb_libusb.c:177-206 | Computes `Framing.UsbRead`: short transfers are continued, an empty one is an error. |
| Transport.CheckSum | zadb/src/transport_z.c:177-188 | The accumulating loop computes the checksum. |
| Transport.SendPacket | zadb/src/transport_z.c:17-43 | Puts the sealed packet on the pipe. |
| Transport.RemoteWrite | zadb/src/transport_usb.c:81-98 | Byte-swaps the header in place and writes header and payload. |
| Transport.RemoteRead | zadb/src/transport_usb.c:52-79 | Computes `Framing.RemoteRead`, with 0 exactly for an accepted packet. |
| SessionProtocol.SessionDelivery | zadb/src/send.c:179-225 | Over every run, since the session's first OKAY, which carried its number: the consumer gets that OKAY and then, in order, the packets kept for the session's ids, which of WRTE packets are exactly the non-empty ones from the peer; and each WRTE from the peer got one READY that carries the session's ids. |
| SessionProtocol.NoStalePacketSurvives | zadb/src/send.c:179-192 | Whatever was queued before the first OKAY of a session, and whatever comes until the next open, the consumer gets that OKAY and then just the packets kept for the session that arrived after it. |
| SessionProtocol.NoWriteBeforeOkay | zadb/src/send.c:288-302 | Between an open and its OKAY no WRTE is sent, and an OKAY for the session is not missed. |
| SessionProtocol.SessionSends | zadb/src/send.c:266-302 | Since the first OKAY every written line is sent once, in order and to the peer, each close with the session's ids, and nothing but these and READYs is sent. |
| SessionProtocol.OpensAreNumbered | zadb/src/send.c:252-264 | Sessions are numbered by their opens, and until its OKAY the OPEN with that number and what was asked for is the first thing sent. |
| SessionProtocol.LaterOkaysAreDropped | zadb/src/send.c:192-197 | A later OKAY with the session's ids in the protocol's order is stored if and only if the two ids are equal: the code compares them the other way round. |
| Session.Client.HandlePacket | zadb/src/send.c:145-234 | The switch over arriving packets is the Handle step. |
| Session.Client.SendOpen | zadb/src/send.c:252-264 | A new seed, the OPEN packet, and then both ids given up: the Open step. |
| Session.Client.SendWrite | zadb/src/send.c:288-302 | The Write step: nothing without a remote id. |
| Session.Client.ShiftReceivedPacket | zadb/src/send.c:304-319 | Takes the oldest packet: the Shift step. |
| Session.Client.SendClose | zadb/src/send.c:277-286 | The Close step. |
| Session.Client.ClearReceivedPacket | zadb/src/send.c:118-128 | The loop leaves an empty queue. |
| Session.Client.SendReady | zadb/src/send.c:266-275 | Acknowledges with the session's ids. |
| SourceNumbers.LimitsInNumbers | libusb/libusb-1.0-1.0.8/libusb/os/linux_usbfs.h:81-82 | The limits of URBs, buffers and payloads as numbers. |
| SourceNumbers.CodesInNumbers | libusb/libusb-1.0-1.0.8/libusb/libusb.h:595-640 | The error codes as numbers. |

## Left out

- Real system calls: ioctl, poll, read and write, directory scanning and clocks are events or parameters; `clock_gettime` and memory allocation are taken not to fail, and the control-pipe write-failure paths are not modelled.
- Threads inside one call: outside `EventLock`, `EventRuns` and `PollSet` every call is one step, so a callback that submits or cancels appears as a further step, and a callback that resubmits during a disconnection is not modelled.
- Callbacks that open or close a device: libusb_open or libusb_close called by the thread that holds the events lock would block on that lock; `NoDeadlock` speaks of threads that call them outside event handling.
- Condition variables: spurious wakeups and fairness.
- Bulk and isochronous URBs reaped out of submission order, the search for a URB's index by its address, and submitting a transfer that is already in flight.
- BulkTransfer.BulkTransfer.ReapForHandle: requires that the URB is not freed, because what the code does with a freed one is undefined; `FreedUrbComesBackExactly` says when it would be.
- BulkTransfer.BulkTransfer.HandleBulkCompletion: the same.
- Control transfers: one URB each, they would add an easier copy of the bulk machine.
- Descriptors that lie outside the buffer: memory is total in the model, so reading past the end gives some byte.
- DeviceList.Context.ScanDevices: the sysfs scan only; the usbfs fallback, which shares the enumeration of one device, is not modelled.
- The field values that initialising a device fills in, and claiming interfaces.
- FlyingList.Context.HandleTransferCompletion: the short-transfer rule is part of the status the backend machines report (`BulkTransfer.CompleteTransfer`, `Backends.IsoStatus`), not repeated here.
- FlyingList.Context.HandleUrb: covers every step on URBs that are not freed; being handed a freed one is the event `Freed` of `TransferLayers` and has no method.
- SessionProtocol.SessionDelivery: assumes atomic steps; the window in `send_open` between sending the packet and giving up the old ids is not modelled, and the seed is an unbounded counter.
- KeyQueue: a node that was sent is never freed in the code; the model does not track memory.
- The Darwin backend, the synchronous wrappers, device probing and hotplug, the command line, vendor tables and examples.
