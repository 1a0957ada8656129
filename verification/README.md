# Verification of the ODF controller

The program controls a rack of fibre ports that read electronic tags. This project models the parts of
it where state, loops and partial failure decide whether it is right, and proves what they promise.
Verify it with `dafny verify dfyconfig.toml` (Dafny 4.11).

The files, from the bottom up:

- `Options.dfy`: a value that may be missing.
- `Register.dfy`: a fold of a register over bytes, with the loops that all three checksums share
  (one byte at a time, unrolled eight times, in chunks).
- `Crc16.dfy`, `Crc32.dfy`, `Crc8.dfy`: the three checksums. The table of each fast form is proved to be
  the bitwise polynomial, entry by entry, and error detection follows from linearity and injectivity.
- `CheckValues.dfy`: the checksums of the text "123456789".
- `Framing.dfy`: the I3 wire format, octet stuffing as in section 4.2 of RFC 1662, with both decoders.
- `EnvBuffer.dfy`: the boot environment as a flat text buffer, edited in place, against a finite map.
- `NandStore.dfy`: reading and read-modify-writing a range over blocks some of which are bad.
- `EnvSave.dfy`: the two-copy save protocol, its power-loss safety and its durability over runs.
- `EnvNand.dfy`: start and save on two NAND devices, shown to take the steps of that protocol.
- `EnvProgram.dfy`: a program that changes variables and saves, down to the blocks, and the next start.
- `OrderFrame.dfy`, `MisreadOrder.dfy`: the frame of a batch order of up to five port pairs, where the
  program thinks that it ends, and a frame on which it is mistaken.
- `Tags.dfy`, `BatchOrder.dfy`, `PortPartition.dfy`: the table of a batch order, and the commands that it
  is split into.
- `TwoRackOrder.dfy`: the order over two racks, as steps of two nodes and their connection.
- `FirmwareUpdate.dfy`, `FirmwareImage.dfy`: the update of the interface boards, and the way of the file.
- `Dispatcher.dfy`, `TaskQueue.dfy`, `ResourceUpload.dfy`: retries on the serial bus, the ring of tasks,
  and the stop-and-wait upload.

## How the source is modelled

Bytes are `bv8`. Loops over buffers are methods over arrays, and structures that the source changes in
place are classes; each method is proved against a function or a stated property, and the theorems are
about those. What a read, a write, a driver call or a peer answers is a parameter: for the NAND layer an
arbitrary fault for each block, for the boards an arbitrary answer to each try, for the upload an
arbitrary outcome of each packet. A failing erase or write leaves arbitrary bytes in its block.

Flag bytes are unsigned, as `char` is on the ARM target that the Makefile builds for. The check word is
stored low byte first for the same reason.

## Assumptions

- A copy of the environment that was torn by a power cut fails its checksum.
- Erase sizes are powers of two, so that the masks of the source round to them, and both environment
  devices are configured with the same size.
- In `BatchOrder` the pair number that a board sends is one of the five rows.
- The frame of a batch order has passed `crc16_check`, begins with the version byte 0 behind its flag,
  orders at most five pairs, and stands in a buffer that was cleared before.
- In the two-rack order the connection delivers in order and is made anew for each order; messages may
  be lost. What a slave sends on the connection of an earlier order does not reach the master.
- Messages of the boards during an update carry the frame that is being updated.
  `FirmwareUpdate.CountExactly` says what happens otherwise.
- Callers keep the lengths that the source trusts: a `crc16_check` of 0 or at least 4 bytes, a length
  field inside the receive buffer, a packet number inside the file buffer, a task that fits its ring.

## What the proofs found

Where a property fails the code was kept as it is, with a concrete input and the exact condition.

- The newest environment is lost for good when the flag 255 stands on device 1: the copy on device 0 then
  gets the flag 0, and the comparison `flag1 > flag0` is tried first (env/fw_env.c:986-995).
  `EnvSave.DurableExactly` gives the condition for one save, `EnvSave.NeverLost` for all runs: device
  number and flag must differ in parity.
- The protection of `ethaddr` and `serial#` compares the whole name, but the search stops at '='. A set
  of a name such as `ethaddr=` gets past it (`EnvBuffer.ProtectedExactly`).
- A tag whose 16 compared bytes are all zeros passes for an empty entry of the batch table, and can come
  to stand in two pairs (`BatchOrder.TwiceExactly`). It also lets the automatic confirmation be entered
  with one end empty (`BatchOrder.ConfirmExactly`).
- The end of a batch order is looked for as a flag with a zero behind it. A check value of 0x007e is
  stored as these two bytes, so that the end is found two bytes early and one pair too few is counted:
  wrong pair numbers go out, and the last pair is not recorded (`OrderFrame.EndExactly`,
  `PortPartition.ListingExactly`, and `MisreadOrder.Misread` for a frame). The condition is
  `OrderFrame.Clean`; `OrderFrame.CleanByCheck` puts it in terms of the check value.
- After a mismatch in a batch the port is told to expect the tag of the first pair instead of its own
  partner's (`BatchOrder.HintIsPartners`, `BatchOrder.WrongHint`).
- The confirmations of a pair whose ports are in two frames are both written to the slot of the source
  port, so that neither board gets its own (`BatchOrder.BothConfirmedExactly`).
- A two-rack order that came from a mobile terminal is never answered, because only the network manager
  is noted as its source (`TwoRackOrder.MobileUnanswered`); `TwoRackOrder.AnsweredLocally` and
  `TwoRackOrder.AnsweredRemotely` say exactly when an acknowledgement is answered.
- The slave looks for the code of a cancel where the id of the rack begins, so a rack whose id begins
  with 0xa3 can never carry out an order (`TwoRackOrder.SuccessExactly`).
- With a file of fewer than 17 pages the program reads behind the page table without having sent the
  restart command (`FirmwareImage.SessionExactly`).
- Several saves in one start all go to the same copy, and once counting has gone beyond the flag 255 the
  old copy is loaded again (`EnvSave.SavesInOneStart`).
- In frame lengths `hi << 8 | lo + 2` adds before it combines (`TaskQueue.LengthExactly`), and a task
  that straddles the end of the ring is put together wrongly unless both parts are equally long
  (`TaskQueue.StraddlingExactly`).

## Model

| member | source | states |
|---|---|---|
| `Crc16.TableIsTable` | crc16_ccitt.c:6-39 | each of the 256 table entries is what eight steps of the bitwise 0x8408 register make of its index |
| `Crc16.ByTable` | crc16_ccitt.c:57-58 | for every message and start value the table-driven steps give the same register as the bitwise ones |
| `Crc16.Calc` | crc16_ccitt.c:51-63 | the loop computes the bitwise register over the given bytes, starting from 0, without a final xor |
| `Crc16.Residue` | crc16_ccitt.c:51-63 | a message followed by two bytes leaves the register 0 exactly when the bytes are its own check value, low byte first |
| `Crc16.AcceptsByResidue` | crc16_ccitt.c:71-97 | a frame is accepted exactly when its body together with its check field leaves the residue 0 |
| `Crc16.TwoByteErrorDetected` | crc16_ccitt.c:71-97 | any change confined to two neighbouring bytes of the body or the check field of an accepted frame is refused, for frames of any length |
| `Crc16.Check` | crc16_ccitt.c:71-97 | true exactly for data of 4 to 2048 bytes whose check field matches; null, empty and longer data are refused |
| `Crc32.TableIsTable` | env/crc32.c:74-127 | each of the 256 table entries is what eight steps of the bitwise 0xedb88320 register make of its index |
| `Crc32.ByTable` | env/crc32.c:144-147 | the table-driven steps give the same register as the bitwise ones |
| `Crc32.Calc` | env/crc32.c:150-166 | the loop that is unrolled eight times, with its remainder loop, computes the flipped bitwise register over the given bytes |
| `Crc32.ChecksumConcat` | env/crc32.c:150-166 | the checksum of a whole is the checksum of its second part continued from that of the first |
| `Crc32.CalcInChunks` | env/crc32.c:197-220 | taking the checksum chunk by chunk gives that of the whole, whatever the chunk size |
| `Crc8.OneByte` | crc8.c:13-29 | the bit loop with its four cases is eight shifts of the 0x31 register |
| `Crc8.Calc` | crc8.c:9-33 | the two nested loops compute the reference register over the given bytes |
| `Crc8.Checkout` | crc8.c:40-54 | true exactly when the byte that the length field points at is the check value of all bytes before it |
| `Crc8.OneByteErrorDetected` | crc8.c:40-54 | of an accepted frame, a change of one byte that is not part of the length field is noticed exactly when the byte is covered by the length |
| `CheckValues.OfCrc8` | crc8.c:9-33 | the checksum of the text "123456789" is 0xa2 |
| `CheckValues.OfCrc16` | crc16_ccitt.c:51-63 | the check value of that text is 0x2189 |
| `CheckValues.OfCrc32` | env/crc32.c:150-166 | the checksum of that text is 0xcbf43926 |
| `Framing.UnescapeOfEscape` | main.c:683-708 | both decoders undo the encoder on every input, whatever byte follows |
| `Framing.EscapeHidesFlags` | main.c:683-708 | stuffed data holds no flag and is at most twice as long |
| `Framing.DecodersAgree` | lib_orders/Jiajian_common.c:8-32 | the decoder that drops a lone escape and the one that keeps it agree exactly on the inputs without a lone escape |
| `Framing.CodesSent` | main.c:683-708 | 7d 5e is sent for the flag, 7d 5d for the escape, and any other byte as it is |
| `Framing.CodesReceived` | main.c:615-643 | those two codes are read back as flag and escape; an escape before any other byte is kept by one decoder and dropped by the other, and the byte is read for itself |
| `Framing.SealLayout` | main.c:683-708 | the check value stands behind the body, low byte first, between the flags |
| `Framing.SealAccepted` | main.c:615-643 | every body sealed with its check value, low byte first, is accepted by the check |
| `Framing.EndToEnd` | main.c:615-708 | for every body: seal, stuff, send and decode gives the identical frame, which is accepted; on the wire only the two ends are flags; the length bound |
| `Framing.EncodeFrame` | main.c:683-708 | the output is a flag, the stuffed bytes 1 to len, and a flag; the copies in lib_orders and dfu_update have the same loop |
| `Framing.EncodeInner` | module_resource_2.c:367-385 | the copy without flags appends exactly the stuffed bytes |
| `Framing.DecodeFrame` | main.c:615-643 | the loop that looks one byte ahead computes the decoding of the frame, for both treatments of a lone escape |
| `EnvBuffer.Environment.EnvMatch` | env/fw_env.c:854-863 | the match succeeds exactly when both strings have the same name in front of '=', and points at the value |
| `EnvBuffer.Environment.CloseGap` | env/fw_env.c:363-374 | the in-place move leaves the list without the deleted string, properly ended |
| `EnvBuffer.Environment.FindEnd` | env/fw_env.c:376-378 | the search for two NULs ends behind the last string, also in an empty buffer |
| `EnvBuffer.Environment.SetEnv` | env/fw_env.c:314-409 | for every buffer that holds a well-formed list: a set of a defined "ethaddr" or "serial#" returns -1 and changes nothing; any other that fits returns 0, takes out the old string of the name and puts name, '=' and value at the end; one that does not fit returns -1 and only takes out; the buffer holds exactly the new list, ended by two NULs |
| `EnvBuffer.Environment.GetEnv` | env/fw_env.c:229-250 | the result points at the value that the list has for the name, or says that there is none |
| `EnvBuffer.SetWellFormed` | env/fw_env.c:314-409 | after a set every string still has a name and no name occurs twice |
| `EnvBuffer.SetRefinesMap` | env/fw_env.c:314-409 | a set acts as an update of a finite map: the name gets the value, or is taken out when the buffer overflows, or nothing changes when it is protected; every other name keeps its value |
| `EnvBuffer.SetKeepsOrder` | env/fw_env.c:314-409 | variables that are not set keep their order |
| `EnvBuffer.SetByName` | env/fw_env.c:344-386 | the three outcomes of a set by the two protected names, written out, and by the room in the buffer |
| `EnvBuffer.ProtectedExactly` | env/fw_env.c:349-357 | a defined "ethaddr" or "serial#", the names written out, survives a set with every value if and only if the call does not reach it by a longer name with '=' |
| `EnvBuffer.SetOnceCounterexample` | env/fw_env.c:349-357 | a set of "ethaddr=" replaces a defined ethaddr |
| `EnvBuffer.ProtectedForever` | env/fw_env.c:349-357 | no run of sets that name it plainly changes a defined "ethaddr" or "serial#" |
| `NandStore.Device.BadBlock` | env/fw_env.c:442-462 | negative exactly when the test fails, positive exactly for a bad block |
| `NandStore.WalkIsRange` | env/fw_env.c:469-555 | skipping bad blocks one by one delivers the same bytes as cutting the range out of the good blocks laid end to end, and fails exactly when that range is too long |
| `NandStore.BlockInStream` | env/fw_env.c:508-546 | the bytes of a good block stand in the stream behind those of all good blocks before it |
| `NandStore.ReadOfGoodDevice` | env/fw_env.c:483-505 | on a device without bad blocks a range inside the area is read exactly as it stands at its offset |
| `NandStore.AreaEndIsStart` | env/fw_env.c:499-504 | the end of the area is the rounded device offset and the sectors of the environment |
| `NandStore.Device.ReadBlock` | env/fw_env.c:515-546 | one turn of the read loop extends what was read by exactly the next bytes of the walk, or skips a bad block, or gives up for a stated reason |
| `NandStore.Device.ReadBuf` | env/fw_env.c:469-555 | for every bad-block map, offset and count: a result other than -1 means that the buffer holds the range; without faults the read succeeds whenever the range exists; the loop ends inside the area |
| `NandStore.Device.WriteBlock` | env/fw_env.c:648-691 | one turn of the write loop programs exactly one good block and touches no other, whatever fails |
| `NandStore.Device.WriteOn` | env/fw_env.c:648-693 | the loop writes the data over the front of the stream of good blocks and leaves the rest of the stream, all bad blocks and all blocks past the last one reached |
| `NandStore.Device.WriteBuf` | env/fw_env.c:562-700 | read-modify-write: on success exactly the range is replaced; without faults it succeeds whenever the range can be read; in every case only good blocks from the first to the last one reached differ |
| `NandStore.EnoughBlocks` | env/fw_env.c:604 | rounding the write up to whole blocks never asks for more good blocks than a range that fits has |
| `NandStore.ReadAfterWrite` | env/fw_env.c:469-700 | after a successful write the same range reads back as written and every range beside it reads as before |
| `NandStore.OtherAreaKept` | env/fw_env.c:562-700 | a write, successful or not, leaves every area of other blocks as it was |
| `EnvSave.RunKeepsSafe` | env/fw_env.c:723-1001 | in every run of edits, saves and restarts cut anywhere the copy the program started from stays whole |
| `EnvSave.PowerLossSafe` | env/fw_env.c:723-1001 | after any such run the next start loads a copy that passes its check, with the data this start began with or that of the last save that was not torn, for both flag schemes |
| `EnvSave.SaveIsAtomic` | env/fw_env.c:723-764 | one save cut at any point leaves the old or the new environment to the next start: the old one when the new copy was not finished, the new one when a save on NOR flash is complete |
| `EnvSave.TornKeeps` | env/fw_env.c:723-764 | a save torn while the copy is rewritten is as if it had not been tried |
| `EnvSave.CompletedSave` | env/fw_env.c:723-764 | a completed save: the other copy passes its check with the new data; flags 1 and 0 on NOR flash, the old flag plus one in a byte on NAND flash |
| `EnvSave.NewerOnNor` | env/fw_env.c:969-985 | of two good copies on NOR flash the second is taken exactly when the flags are 0 and 1, or it alone has an erased flag |
| `EnvSave.NewerOnNand` | env/fw_env.c:986-995 | on NAND flash exactly when its flag is greater or has wrapped to 0 |
| `EnvSave.DurableExactly` | env/fw_env.c:957-1001 | a completed save is what the next start loads if and only if its flag does not wrap from 255 to 0 on device 0; otherwise the old copy is loaded again |
| `EnvSave.AdvancedWithinBudget` | env/fw_env.c:730-735 | over any number of cycles the data taken over is that of the last save within the budget that device and flag allow |
| `EnvSave.RunDurable` | env/fw_env.c:730-1001 | every run of cycles of one start, edit and save on NAND flash, cut anywhere: the next start loads the last of the completed saves that the budget covers |
| `EnvSave.SavesInOneStart` | env/fw_env.c:730-1001 | any edits and any number k of completed saves in one start: the next start loads what was saved last if and only if counting k on from the flag keeps within 255, with an exception at each end of the range; otherwise it loads what this start loaded; on NOR flash always the last |
| `EnvSave.LosingRunLoses` | env/fw_env.c:986-995 | when device and flag agree in parity, a concrete run of completed saves loses its last one |
| `EnvSave.NeverLost` | env/fw_env.c:986-995 | no save is ever lost, in any run, if and only if device number and flag differ in parity |
| `EnvNand.WordOfBytes` | env/fw_env.c:88-98 | the check word stored low byte first reads back as itself |
| `EnvNand.ImageLayout` | env/fw_env.c:88-98 | the check word stands in the first four bytes, low byte first, the flag in the fifth, the data behind |
| `EnvNand.Environment.Check` | env/fw_env.c:911-912 | true exactly when the check word of an image is the checksum of its data; the flag is not covered |
| `EnvNand.Environment.Read` | env/fw_env.c:766-788 | the image read is the range of the device, or the read is reported as failed |
| `EnvNand.Environment.Choose` | env/fw_env.c:959-1001 | the device chosen from the two images in memory is the one the protocol chooses |
| `EnvNand.Environment.EnvInit` | env/fw_env.c:868-1020 | over two NAND devices: with a good copy the image is a good copy as it stands on its device; with none it is that of device 0 with the default data over its front and nothing else changed; current device, flag and data are those of the protocol's start; without faults it succeeds |
| `EnvNand.Environment.Stamp` | env/fw_env.c:418-434 | the image becomes a valid copy of its data with the next flag |
| `EnvNand.Environment.SaveEnv` | env/fw_env.c:418-434 | on success the two devices hold what the protocol's completed save leaves; on failure at most the other copy is torn; without faults it succeeds |
| `EnvNand.Environment.Update` | env/fw_env.c:418-1020 | start, change, save on real blocks: the next start loads the new data if and only if the flag does not wrap; a detected torn save changes nothing |
| `EnvProgram.ChangeAndSave` | main.c:2439-2449 | a program that starts, makes any calls of fw_setenv and saves: the next start holds exactly the variables that the calls make of the old ones, unless the flag wraps; after a wrap or a detected torn save it loads the old ones |
| `EnvProgram.StartAndGet` | main.c:2439-2443 | after a start, fw_getenv points at the stored value in the image in memory, ended by a NUL, or says that there is none |
| `EnvProgram.FirstStartAndGet` | env/fw_env.c:961-966 | when neither copy passes its check, fw_getenv after the start finds the variables of the default environment |
| `EnvProgram.SetArrives` | env/fw_env.c:314-409 | of a saved set that succeeded the next start finds the stored value under the name, and every other variable as before |
| `OrderFrame.DataLength` | lib_orders/Jianei_Order_new_5_ports.c:371-383 | for every received order the loop finds the specified end: two bytes before the first flag that a zero follows |
| `OrderFrame.EndExactly` | lib_orders/Jianei_Order_new_5_ports.c:371-388 | that end is behind the last port of the order if and only if no flag byte inside the frame has a zero behind it |
| `OrderFrame.CleanByCheck` | lib_orders/Jianei_Order_new_5_ports.c:371-388 | for an order whose ports and head make no such pair, also with its first check byte, this means a check value other than 0x007e |
| `OrderFrame.RecordExactly` | lib_orders/Jianei_Order_new_5_ports.c:755-791 | the lists taken for the table are the two halves of the ports of the order if and only if the frame is clean |
| `OrderFrame.PortBytes` | lib_orders/Jianei_Order_new_5_ports.c:392-404 | port i of an order is made of the three bytes from 68 + 3 i on: frame, tray, number |
| `OrderFrame.ShortByTwo` | lib_orders/Jianei_Order_new_5_ports.c:774-791 | with an end two bytes early the table lacks the last pair, its A ends are right, and its Z ends are read from one byte before the first of them |
| `MisreadOrder.Misread` | lib_orders/Jianei_Order_new_5_ports.c:371-388 | a concrete order of one pair that passes the check with the value 0x007e: the end is found two bytes early, no pair is counted and both lists are empty |
| `BatchOrder.Batch.Start` | lib_orders/Jianei_Order_new_5_ports.c:755-808 | for a received order the cleared table gets exactly the ports that the program finds in the buffer, A list and Z list, pair by pair; it stays inside the table exactly when at most five pairs are counted |
| `BatchOrder.Batch.Search` | lib_orders/Jianei_Order_new_5_ports.c:513-674 | the two loops decide whether a tag is taken to sit in the wrong pair |
| `BatchOrder.SearchIsExact` | lib_orders/Jianei_Order_new_5_ports.c:513-674 | in a table without doubles the search reports a tag with a real field as misplaced exactly when another pair has it |
| `BatchOrder.Batch.Insert` | lib_orders/Jianei_Order_new_5_ports.c:78-289 | table and commands, each with the slot it is written to, after an inserted tag are those of the specification |
| `BatchOrder.Batch.Remove` | lib_orders/Jianei_Order_new_5_ports.c:291-317 | the end whose port is named, the source end first, has no tag and is offline, every other end keeps everything, and the boards are told when both ends are offline |
| `BatchOrder.Batch.Ack` | lib_orders/Jianei_Order_new_5_ports.c:319-342 | the end whose port is named, the source end first, notes 0x0a for code 0 and 0x0e for any other, every other end keeps everything, and the pair is done exactly when both ends have 0x0a |
| `BatchOrder.DoneExactly` | lib_orders/Jianei_Order_new_5_ports.c:319-342 | in every run, after an acknowledgement of each end of a pair in either order, both ends have 0x0a if and only if both codes were 0 |
| `BatchOrder.RecordedExactly` | lib_orders/Jianei_Order_new_5_ports.c:94-150 | after every run: a tag put into a free source port is recorded there, online, exactly when no other pair bears its field and the other end holds none or an agreeing one; nothing else changes |
| `BatchOrder.RecordedExactlyThere` | lib_orders/Jianei_Order_new_5_ports.c:153-214 | the same for the other end of the pair |
| `BatchOrder.OccupiedStays` | lib_orders/Jianei_Order_new_5_ports.c:95-155 | a tag at an end that has one already changes nothing |
| `BatchOrder.WrongExactly` | lib_orders/Jianei_Order_new_5_ports.c:80-91 | after every run a tag with a real field is answered as wrong exactly when another pair bears it |
| `BatchOrder.StepKeepsAgree` | lib_orders/Jianei_Order_new_5_ports.c:78-342 | every event keeps the two ends of each pair in agreement |
| `BatchOrder.StepKeepsApart` | lib_orders/Jianei_Order_new_5_ports.c:78-342 | every event keeps real fields in one pair only |
| `BatchOrder.EveryRun` | lib_orders/Jianei_Order_new_5_ports.c:24-364 | after every run of orders, insertions, removals and acknowledgements both hold |
| `BatchOrder.ZeroFieldTwice` | lib_orders/Jianei_Order_new_5_ports.c:513-674 | a concrete run puts a tag whose field is all zeros into two pairs |
| `BatchOrder.TwiceExactly` | lib_orders/Jianei_Order_new_5_ports.c:513-674 | a field can come to be borne in two pairs if and only if it is all zeros |
| `BatchOrder.ConfirmExactly` | lib_orders/Jianei_Order_new_5_ports.c:217-220 | in every reachable table the automatic confirmation is entered exactly when both ends hold a tag, which then agree, or a source tag with a zero field stands alone |
| `BatchOrder.ConfirmedExactly` | lib_orders/Jianei_Order_new_5_ports.c:216-284 | after every run a confirmation goes out exactly when both ends hold a tag afterwards, or a source tag with a zero field stands alone |
| `BatchOrder.HintIsPartners` | lib_orders/Jianei_Order_new_5_ports.c:133-148 | after a mismatch at the source end, in every reachable table and for a partner with a real field: the tag that the port is told to expect is its partner's if and only if the pair is the first |
| `BatchOrder.HintIsPartnersThere` | lib_orders/Jianei_Order_new_5_ports.c:192-207 | the same at the other end |
| `BatchOrder.WrongHint` | lib_orders/Jianei_Order_new_5_ports.c:192-207 | a concrete run after which a port of the second pair is told to expect no tag, while its partner holds one |
| `BatchOrder.BothConfirmedExactly` | lib_orders/Jianei_Order_new_5_ports.c:221-284 | the boards of the two ends get the confirmation of their ports if and only if both ends are in one frame; otherwise the second command takes the slot of the first (262-264, 278-280) |
| `BatchOrder.TwoTagsInTurn` | lib_orders/Jianei_Order_new_5_ports.c:94-286 | in every reachable table the first tag of a pair is announced to the other end, the second, which agrees, brings the confirmation, and it reaches both boards if and only if both ends are in one frame |
| `PortPartition.Gather` | lib_orders/Jianei_Order_new_5_ports.c:392-419 | the walk over the list builds the draft with exactly the ports of the frame and their pair numbers |
| `PortPartition.Close` | lib_orders/Jianei_Order_new_5_ports.c:421-424 | length, check byte and end mark complete the draft to a command |
| `PortPartition.CommandLayout` | lib_orders/Jianei_Order_new_5_ports.c:395-424 | the command byte by byte: 7e 00, length, 0d 07 07, frame, tray, number and pair of each port, check byte, 5a |
| `PortPartition.Uart.Partition` | lib_orders/Jianei_Order_new_5_ports.c:366-429 | for every received order of at most five pairs: the number of pairs counted; the slot of a frame that has none of the ports found keeps its bytes, and every other gets the command of its frame, which a board takes as correct |
| `PortPartition.CommandIsRead` | lib_orders/Jianei_Order_new_5_ports.c:421-424 | a board accepts the command, whose length field leads from the header to exactly the ports put in |
| `PortPartition.ListingExactly` | lib_orders/Jianei_Order_new_5_ports.c:371-413 | ports and pair numbers that the program finds are those of the order if and only if the frame is clean, and otherwise not even in another order |
| `PortPartition.MisreadListing` | lib_orders/Jianei_Order_new_5_ports.c:371-413 | in the concrete misread order the two ends of the one pair are sent out as pairs 1 and 2 |
| `PortPartition.EachBoardReads` | lib_orders/Jianei_Order_new_5_ports.c:391-427 | each board accepts its command and reads its own ports, in the order of the list with the pair numbers of the program; in a clean frame this is the list of the order |
| `PortPartition.NoPortLost` | lib_orders/Jianei_Order_new_5_ports.c:391-427 | with frame numbers 1 to 16 the commands together hold each port of the order exactly once, with the number of its pair, if and only if the frame is clean |
| `PortPartition.PairsOfTable` | lib_orders/Jianei_Order_new_5_ports.c:384-413 | in a clean frame the pair number in a command is the row under which the order table has the port |
| `TwoRackOrder.Rack.Remote` | lib_orders/Jiajian_Order_new_2_ports.c:348-605 | a tag of the slave is recorded if the master's end is without one or has an agreeing one, and otherwise only answered with the tag to expect; pulling out clears the slave's end, and all is forgotten exactly when both ends are empty; code 0 is success once both have acknowledged, any other code a failure, and either ends the order |
| `TwoRackOrder.Rack.Local` | lib_orders/Jiajian_Order_new_2_ports.c:879-1141 | a tag of the master is recorded if the slave's end is without one or has an agreeing one, and otherwise this end has none; it is announced exactly when the slave has none; pulling out and acknowledging as for the slave |
| `TwoRackOrder.Rack.Accept` | lib_orders/Jiajian_Order_new_2_ports.c:142-164 | a new order clears everything, notes whether it came from the network manager, and is refused when it does not name this rack |
| `TwoRackOrder.Rack.Withdraw` | lib_orders/Jiajian_Order_new_2_ports.c:23-140 | a cancel is sent and everything is cleared |
| `TwoRackOrder.Slave.FromBoard` | lib_orders/Jiajian_Order_new_2_ports.c:607-737 | while in an order the slave sends a tag put in, a tag pulled out or the code of an acknowledgement, and an acknowledgement ends the order for it |
| `TwoRackOrder.Slave.FromMaster` | lib_orders/Jiajian_Order_new_2_ports.c:276-346 | an order for this rack replaces the one the slave was in, one for another rack or one whose id begins with the code of a cancel ends it, a cancel ends it, other messages change nothing |
| `TwoRackOrder.StepKeepsInv` | lib_orders/Jiajian_Order_new_2_ports.c:348-1141 | every step of either rack or of the connection keeps the invariant of the protocol |
| `TwoRackOrder.EveryInterleaving` | lib_orders/Jiajian_Order_new_2_ports.c:348-1141 | over all interleavings: recorded tags agree when both are there and were really reported; success only after both boards acknowledged with code 0 in this order; success and failure never both; an accepted order is answered at most once, one that did not come from the network manager never |
| `TwoRackOrder.HeardIsRecorded` | lib_orders/Jiajian_Order_new_2_ports.c:348-439 | in every reachable state a tag heard from the slave is recorded, unless the master's end has another: then nothing changes and that one is announced |
| `TwoRackOrder.MismatchCaught` | lib_orders/Jiajian_Order_new_2_ports.c:937-943 | a different tag that is put in at the master's end next is neither recorded nor announced |
| `Tags.FieldExactly` | lib_orders/Jiajian_Order_new_2_ports.c:390 | two tags agree exactly when their bytes 5 to 20 do |
| `TwoRackOrder.AnsweredLocally` | lib_orders/Jiajian_Order_new_2_ports.c:1119-1137 | in every reachable state an acknowledgement of the master's board is answered if and only if the order came from the network manager and the code is bad or the slave has acknowledged; success exactly for code 0 |
| `TwoRackOrder.AnsweredRemotely` | lib_orders/Jiajian_Order_new_2_ports.c:583-602 | the same for an acknowledgement of the slave |
| `TwoRackOrder.MobileUnanswered` | lib_orders/Jiajian_Order_new_2_ports.c:146-149 | a concrete run of an order from a mobile terminal: both racks acknowledge, and there is no answer |
| `TwoRackOrder.SuccessExactly` | lib_orders/Jiajian_Order_new_2_ports.c:142-346 | an order can end with success if and only if it came from the network manager, names a port of the master, and names the slave by an id that does not begin with 0xa3 |
| `TwoRackOrder.LocalIsTruthful` | lib_orders/Jiajian_Order_new_2_ports.c:879-1141 | after a report of the master's boards: a tag that the slave is to expect is the one at the master's end, and a tag is to be forgotten only when both ends are without one |
| `TwoRackOrder.RemoteIsTruthful` | lib_orders/Jiajian_Order_new_2_ports.c:348-605 | the same after a message of the slave |
| `TwoRackOrder.LocalConfirm` | lib_orders/Jiajian_Order_new_2_ports.c:974 | in every reachable state the master asks for confirmation, after a local tag, exactly when both ends hold a tag or both fields are zero |
| `TwoRackOrder.RemoteConfirm` | lib_orders/Jiajian_Order_new_2_ports.c:441 | the same after a tag of the slave |
| `FirmwareUpdate.Updater.Discover` | dfu_update/update_sim3u1xx.c:25-83 | exactly the boards that answer are marked, and the count is their number |
| `FirmwareUpdate.Updater.Find` | dfu_update/update_sim3u1xx.c:85-100 | the first board that is still to be updated |
| `FirmwareUpdate.Updater.SendStartup` | dfu_update/update_sim3u1xx.c:106-158 | the first board marked as waiting, if there is one, becomes the current one; it goes on if and only if one of three tries is acknowledged, and else has failed and is no longer counted |
| `FirmwareUpdate.Updater.AnyWaiting` | dfu_update/update_sim3u1xx.c:161-172 | whether some board still waits |
| `FirmwareUpdate.Updater.StartNext` | dfu_update/update_sim3u1xx.c:174-205 | the loop that resets its own counter ends, because the count falls, and never without a status; its result is that of the specification |
| `FirmwareUpdate.Updater.SendToCurrent` | dfu_update/update_sim3u1xx.c:215-365 | if one of three tries is acknowledged nothing changes; otherwise the board has failed and the next one is started |
| `FirmwareUpdate.Updater.NextBoard` | dfu_update/update_sim3u1xx.c:376-392 | the reported result is recorded, the count falls by one, and the next board is started |
| `FirmwareUpdate.Updater.Launch` | dfu_update/update_sim3u1xx.c:418-426 | the search for the boards and the first start take exactly the first step of a run |
| `FirmwareUpdate.Updater.Handle` | dfu_update/update_sim3u1xx.c:428-461 | a message of the current board takes exactly one step of a run, and when it was the last the manager is told its outcome |
| `FirmwareUpdate.Updater.Report` | dfu_update/update_sim3u1xx.c:395-412 | 1 exactly when some board of the update has the result of a failure |
| `FirmwareUpdate.CountExactly` | dfu_update/update_sim3u1xx.c:376-387 | finishing a board keeps the count right if and only if the board was still waiting; so it never underflows for the current one |
| `FirmwareUpdate.ServiceEffect` | dfu_update/update_sim3u1xx.c:174-205 | starting boards until one acknowledges tries exactly the next found boards, in order, and those that do not acknowledge have failed |
| `FirmwareUpdate.StepKeepsInv` | dfu_update/update_sim3u1xx.c:414-469 | every message of the current board keeps the invariant of the run |
| `FirmwareUpdate.EveryRun` | dfu_update/update_sim3u1xx.c:414-469 | in every run boards are started in increasing order, each at most once, and the count is the number that wait, at least one while the run goes on |
| `FirmwareUpdate.WhenOver` | dfu_update/update_sim3u1xx.c:395-469 | when it ends every found board was started and is done, and the manager is told 1 exactly when some board gave up or reported the failure code |
| `FirmwareUpdate.FateIsResult` | dfu_update/update_sim3u1xx.c:106-392 | the result of each found board, by messages and answers alone: the code of its restart message, or the failure code when all three tries of its startup, of a packet or of the restart command went unanswered |
| `FirmwareUpdate.OutcomeByEvents` | dfu_update/update_sim3u1xx.c:395-412 | the manager is told 1 exactly when some found board comes to the failure code in that way |
| `FirmwareImage.AnyOrder` | dfu_update/ftp.c:511-513 | packets of a file in any order, with any repetitions: once each number has arrived the buffer begins with the file |
| `FirmwareImage.Dfu.Place` | dfu_update/ftp.c:511-513 | a packet lands at its place and nothing else changes |
| `FirmwareImage.PaddedExactly` | dfu_update/ftp.c:316-347 | the file is filled up with 0xff to an even number of pages, and with less than two pages |
| `FirmwareImage.Dfu.Distribute` | dfu_update/ftp.c:316-347 | the page table holds the file, filled with 0xff up to an even number of pages, for up to 35 packets |
| `FirmwareImage.Dfu.Next` | dfu_update/update_sim3u1xx.c:280-337 | after an echoed page number comes the next page, or the restart command |
| `FirmwareImage.SessionExactly` | dfu_update/update_sim3u1xx.c:215-337 | with a board that echoes, the pages from the seventeenth on are sent once each and in order and then the restart command, if and only if there are seventeen; otherwise the program reads behind the page table without having sent the restart command |
| `FirmwareImage.FileArrives` | dfu_update/update_sim3u1xx.c:215-337 | the bytes sent are the filled-up file from byte 8192 to its end |
| `Dispatcher.Uart.Mark` | lib_orders/Jianei_common.c:128-137 | exactly the boards with a command get a task and, unless it cancels, are marked as busy |
| `Dispatcher.Uart.Round` | lib_orders/Jianei_common.c:141-157 | one round writes to the boards that still have a task and takes it from those that acknowledge |
| `Dispatcher.Uart.Dispatch` | lib_orders/Jianei_common.c:122-175 | true exactly when every board with a command acknowledged one of three rounds; on exit no command waits; the writes made are those of the specification |
| `Dispatcher.DispatchWrites` | lib_orders/Jianei_common.c:139-157 | each waiting board is written at least once and at most three times, never after its acknowledgement, and no other board is written |
| `Dispatcher.WritesExactly` | lib_orders/Jianei_common.c:139-157 | a waiting board is written once, twice or three times: until its first acknowledgement, and three times without one |
| `TaskQueue.LengthExactly` | queue.c:15 | the expression hi << 8 \| lo + 2 is the length field plus two if and only if lo is at most 253 or hi is even |
| `TaskQueue.Queue.Add` | queue.c:35-55 | a task that fits is appended to the tasks in the ring, around its end if need be |
| `TaskQueue.Queue.Download` | queue.c:3-33 | the oldest task leaves the ring; a task in one piece begins the buffer, and the second part of one that straddles the end lands at its own length |
| `TaskQueue.StraddlingExactly` | queue.c:17-24 | a straddling download is right for all contents if and only if the two parts are equally long |
| `TaskQueue.AddedAfter` | queue.c:40-53 | storing a task behind others leaves their bytes in place around the ring |
| `TaskQueue.RestOfRing` | queue.c:17-31 | clearing the oldest task leaves the bytes of all others |
| `ResourceUpload.Uploader.StoreRecord` | module_resource_2.c:297-300 | the record of a frame goes into its slot |
| `ResourceUpload.StoredSlot` | module_resource_2.c:298-299 | storing one frame's record leaves those of all others |
| `ResourceUpload.SlotsCover` | module_resource_2.c:298-299 | the slots of the eight frames lie side by side and cover bytes 114 to 20273 |
| `ResourceUpload.Uploader.Build` | module_resource_2.c:422-532 | the bytes put on the wire for a packet are its sealed and stuffed body |
| `ResourceUpload.Uploader.Upload` | module_resource_2.c:420-552 | for any outcomes of sending and receiving: which packets have been sent, each as specified |
| `ResourceUpload.ReceivedAsSent` | module_resource_2.c:422-532 | the receiver decodes the payload that was put in |
| `ResourceUpload.SaysWhich` | module_resource_2.c:425-432 | the frame that arrives passes its check and tells its number and that there are 20 |
| `ResourceUpload.BodyLayout` | module_resource_2.c:425-520 | the body of each packet byte by byte, with the bytes of the records that it carries |
| `ResourceUpload.TurnsSteady` | module_resource_2.c:420-552 | packet numbers begin at 0, never fall and leave none out |
| `ResourceUpload.TurnExactly` | module_resource_2.c:420-552 | the number grows exactly on an answer with code 0; a packet is sent unless sending fails; the loop stops when it does, or when the first packet gets no answer, and after packet 19 |
| `ResourceUpload.Uploaded` | module_resource_2.c:414-552 | when all 20 packets are acknowledged the first copies carry, one after the other, the records of all frames |

## Left out

- NOR block writing in `flash_write_buf`: on NOR flash the protocol of `EnvSave` treats the write of a
  copy and the clearing of a flag as steps of their own, with no blocks beneath them.
- `make_crc_table`: it is compiled only with DYNAMIC_CRC_TABLE; the static table is proved instead.
- The default environment's text, configuration files and the printing of the environment.
- EnvBuffer.Environment.SetEnv: starts from a buffer that holds a well-formed list; the error for a
  buffer without a closing NUL is not modelled.
- EnvBuffer.Environment.GetEnv: starts from a well-formed list in the same way.
- EnvProgram.ChangeAndSave: the text is edited in a copy of the data and then put back; in the source it
  is edited where it is.
- NandStore.Device.ReadBuf: the path for NOR flash, which runs the loop once.
- NandStore.Device.WriteBuf: the path for NOR flash, with one large erase.
- EnvNand.Environment.Read: the query and the test of the flash type.
- EnvNand.Environment.EnvInit: the configuration file, the flash type and devices without enough good
  blocks for an environment are not modelled.
- EnvSave.RunDurable: one save in each start, as the programs of the repository do it; several saves in
  one start are `EnvSave.SavesInOneStart`, and mixtures of both have `EnvSave.PowerLossSafe` alone.
- Sockets, threads, sleeps, lights, file writes and reboots. The connection of a two-rack order is made
  in one step; the race between the connecting thread and a second order is not modelled.
- TwoRackOrder.Rack.Remote: the commands to the rack's own boards are not part of the outputs.
- TwoRackOrder.Rack.Local: the commands that go to the rack's own boards are not part of the outputs,
  among them the one after a mismatch, which carries port bytes in place of a tag.
- TwoRackOrder.Slave.FromMaster: the commands that the slave passes on to its boards are not modelled.
- The cancel of a two-rack order opens a connection when there is none; that the connecting thread may
  find its data cleared, or leave its socket to the next order, is not modelled. A lost cancel is.
- BatchOrder.Batch.Start: when more than five pairs are counted the program writes beyond the table; the
  model stops there.
- BatchOrder.Batch.Insert: the guidance commands 0x88 are not modelled; the search that they belong to is.
- BatchOrder.Batch.Remove: of the commands that tell the boards to forget a tag only whether they are sent.
- BatchOrder.Batch.Ack: what follows a refused confirmation reads through a null argument and is not
  modelled; the table after the refusal is.
- The counting of answered pairs that closes a batch.
- FirmwareImage.SessionExactly: the session ends at the first page number behind the table; what the
  program reads and sends from there on is not modelled.
- FirmwareUpdate.Updater.Report: the table is cleared after the report; here it stays as it was.
- FirmwareUpdate.Updater.SendToCurrent: the contents of the packets are in `FirmwareImage`.
- `dfu_update/update_cf8051.c`, the other order programs, the alarm module and the query handlers of
  `main.c`: they repeat these machines or would add only fixed-layout copies.
- `isArrayEmpty` and `myStringcmp` stand as equality of byte sequences.
