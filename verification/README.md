# kvmulate device models

kvmulate gives a KVM guest the peripherals of an IBM PC. Each device is a state machine driven by port or memory
accesses. This project models those machines twice and proves the two agree:

- a class per device with the emulator's own state (heap buffers with offsets, one FIFO shared by command and result
  bytes, free-running flip-flop counters, linked device lists, moving frame-buffer pointers), one method per handler;
- a specification of the same device as the guest sees it (a flat zero-extended disk image, a pure command parser, a
  queue of scan codes, independent 16-bit registers), whose whole-run properties are proved as lemmas.

Every handler's contract says that it does to the class exactly what one step does to the specification.  What the
specification itself means is said once more without its names: the modules DiskPorts, DiskPolling, FloppyPorts,
KeyboardPorts and Screen state what a guest sees in port numbers, byte values and formulas written out.

## Layout

| file | contents |
|---|---|
| Bytes.dfy | fixed-width values, little-endian layout, files as byte strings |
| AtaSpec.dfy, AtaRuns.dfy, Ata.dfy, DiskPorts.dfy, DiskPolling.dfy | disk: specification, whole-run theorems, class, and the disk by port numbers |
| DmaSpec.dfy, Dma.dfy | 8237 DMA controller, page registers and conventional memory |
| FdcSpec.dfy, FdcRuns.dfy, Fdc.dfy, FloppyDriver.dfy, FloppyPorts.dfy | floppy controller (Intel 82077A), a driver of it, and the controller and DMA by port numbers |
| I8042.dfy, KeyboardPorts.dfy | keyboard controller, and by port numbers |
| Io.dfy | port decoder and the machine's handler table |
| MachineSpec.dfy, MachineRuns.dfy, Machine.dfy, Startup.dfy | port dispatch, string I/O, whole-machine theorems, the state at power-on |
| VgaMemory.dfy, VgaRegs.dfy, VgaRuns.dfy, Vga.dfy, VgaViewer.dfy | VGA planes, registers, their histories, renderers |
| Mmio.dfy, Screen.dfy | memory-mapped devices and the movable expansion ROM; from a guest store to the screen |
| Pci.dfy, MemorySize.dfy | PCI device table and address latch; RAM slots against CMOS registers |

## Conventions

Integers are mathematical and every truncation of the C code is written out. `Legal` predicates are what the emulator
asks of the guest: wherever the code asserts (and so aborts) or would index outside a buffer, the access is not legal.
For the disk this means using the data port only while DRQ is set and in the command's direction; for the floppy it is
the main-status handshake. A `Run` is any sequence of legal accesses. The line of an interrupt is a boolean of the
device that drives it. `lseek64`, `read` and `write` are complete operations on a byte string.

## Where the code differs from what one would expect

- The floppy handler is registered before the disk's and shadows 0x3F0-0x3F7, so the disk's device control and
  alternate status at 0x3F6, which the controller implements, cannot be reached (`Io.DeviceControlUnreachable`).
- CHS reads assume 255 heads while only four head bits exist, so most blocks have no CHS address (`AtaRuns.ChsReaches`);
  the identify data reports 15 or 16 heads instead, and its cylinder word wraps on large disks
  (`Ata.GeometryCoversDisk`). Only the model string is byte-swapped, not the serial number or firmware.
- A floppy read past the end of the image delivers stale buffer bytes, unlike the disk, whose buffer is zeroed
  (`FdcRuns.ReadPastEndIsStale`, `FloppyDriver.StaleRead`).
- The 8237 flip-flop reset clears seven bytes of an array of ints (`DmaSpec.FlipFlopResetIsPartial`).
- i8042 command 0x20 falls through into 0x60 (`KeyboardSpec.ReadingCommandByteBlocksData`), and an injected key
  overwrites an unread answer (`KeyboardSpec.InjectedKeyReplacesAnswer`).
- A 32-bit read of an absent PCI device gives 0xFFFF (`Pci.PciBus.ReadConfigL`), and the address port does not give
  back the function number (`Pci.AddressReadsBack`).
- One megabyte disappears when RAM needs the hole below 4G (`MemorySize.RamIsConserved`), and the kilobyte registers
  0x30/0x31 wrap from 80M on (`MemorySize.KilobytesAgree`).
- An expansion ROM moved to 0xA0000 hides video memory (`MmioSpec.DecodeIsWindows`).
- Text mode reads beyond its plane for start addresses above 14384 (`VgaViewer.TextFitsIff`).

## Model

| member | source | states |
|---|---|---|
| `MachineRuns.DiskRoundTrip` | system.c:369-404 | From any machine state, n sectors written through the ports by `REP OUTSW` in any batching and read back by `REP INSW` in any other batching are the same bytes; every other byte of the zero-extended image is as before |
| `MachineRuns.ReadForEveryBatching` | devices/x86/ata/controller.c:98-155 | From any machine state: address, READ SECTORS (count 0 means 256), then any sequence of `REP INSW` totalling 256n words delivers exactly n sectors of the zero-extended image at 512*lba; the image and all other devices are unchanged and DRQ is down |
| `MachineRuns.ReadChsForEveryBatching` | devices/x86/ata/controller.c:115-125 | The same with the LBA bit clear: device/head 0xA0+h, sector s, cylinder low and high bytes of c read the n sectors from block ((c*255+h)*63)+s-1, and from block 0xFFFFFFFF where that is -1 |
| `MachineRuns.WriteForEveryBatching` | devices/x86/ata/controller.c:61-95 | From any machine state: address, WRITE SECTORS, then any sequence of `REP OUTSW` carrying 512n bytes leaves the image with exactly those bytes at 512*lba and touches no other device |
| `DiskPolling.PolledRead` | devices/x86/ata/controller.c:441-466 | A polled READ SECTORS from any machine state: after k data words, with status polls and accesses to other devices in between, the words are the first 2k bytes of the sectors, port 0x1F7 reads 0x48 while words are outstanding and 0x40 afterwards, the data port may be read exactly while it reads 0x48, and IRQ 14 is up until the first poll |
| `DiskPolling.PolledWrite` | devices/x86/ata/controller.c:468-494 | A polled WRITE SECTORS likewise: the image changes with the last word alone, port 0x1F7 reads 0x48 until then and 0x40 afterwards, and IRQ 14 stays down until that word raises it |
| `DiskPolling.IdentifyThroughPorts` | devices/x86/ata/controller.c:210-267 | From any machine state IDENTIFY DEVICE through ports 0x1F6, 0x1F7 and 0x1F0 in any batching delivers the identify block |
| `DiskPorts.AcceptedAccesses` | devices/x86/ata/controller.c:330-426 | Exactly which byte reads and writes of the eight ports, and which command bytes, do not abort the emulator |
| `DiskPorts.CommandReports` | devices/x86/ata/controller.c:298-325 | Which command bytes are accepted, and what ports 0x1F7 and 0x1F1 read and where IRQ 14 is right after each |
| `DiskPorts.ErrorReads` | devices/x86/ata/controller.c:411-414 | From a command to the next, whatever else the guest does, port 0x1F1 reads 0, or 4 after IDENTIFY PACKET DEVICE |
| `DiskPorts.RegisterReadsBack` | devices/x86/ata/controller.c:375-380 | The sector count and sector number ports read back what was last written there, over any run |
| `DiskPorts.HeadReadsBack` | devices/x86/ata/controller.c:399-404 | Port 0x1F6 reads 0xB0 if and only if the last value written to it had bit 4, over any run |
| `DiskPorts.SlaveReadsZero` | devices/x86/ata/controller.c:406-409 | With the absent slave selected the other registers read 0 |
| `DiskPorts.DiskEvent` | devices/x86/ata/controller.c:590-592 | An access reaches the disk through one of its eight ports, as a byte, or as a word at 0x1F0, and in no other way |
| `MachineRuns.AtaIsIndependent` | io.c:49-150 | In any run of the machine the disk is in the state its own accesses alone would produce |
| `MachineRuns.FloppyIsIndependent` | io.c:49-150 | Likewise the floppy controller with its DMA controller, page registers and guest memory |
| `MachineRuns.KeyboardIsIndependent` | io.c:49-150 | Likewise the keyboard controller, keys injected from the viewer thread included |
| `MachineRuns.LiftRun` | io.c:49-150 | A legal run of disk accesses is a legal run of port accesses with the same effect on the disk, the same bytes delivered and no effect elsewhere |
| `MachineRuns.LiftStep` | io.c:49-150 | The same for one access: the decoder brings each of the eight command-block ports to the disk at its offset |
| `MachineRuns.BatchesAreReads` | system.c:389-400 | `REP INSW` instructions with counts k1, k2, ... are one with their sum |
| `MachineRuns.BatchesAreWrites` | system.c:374-385 | `REP OUTSW` instructions over pieces of the data are one over the whole |
| `Machine.System.HandleIn` | system.c:387-401 | The IN loop leaves the machine in the state of `count` single reads, the run page with the bytes of each read in consecutive cells and nothing else changed, and the offset advanced by count*size |
| `Machine.System.HandleOut` | system.c:372-386 | The OUT loop leaves the machine in the state of one single write per cell, in order, and the offset advanced by count*size; the page is not written |
| `Machine.System.CellIn` | system.c:390-399 | One iteration: the little-endian bytes of one read go to the current cell and the offset moves past it |
| `Machine.System.CellOut` | system.c:375-384 | One iteration: the little-endian value of the current cell is written to the port |
| `MachineSpec.RepInSplits` | system.c:389-400 | A repeated IN of a+b cells gives the device state and the bytes of one of a followed by one of b |
| `MachineSpec.RepOutSplits` | system.c:374-385 | So does a repeated OUT, wherever the data is cut between cells |
| `MachineSpec.CellsSize` | system.c:389-400 | A repeated IN yields exactly count*size bytes |
| `MachineSpec.RunAppend` | system.c:369-404 | Runs compose, in state and in bytes delivered |
| `MachineSpec.RoutedWidth` | io.c:49-150 | Of the accesses to modelled devices, in either direction, only words through the disk data port are wider than a byte |
| `Machine.System.IoInB` | io.c:102-116 | A byte read goes to the first handler that claims the port, at the offset from its base; an unclaimed port reads 0xFF, and a device outside the model may answer anything but disturbs nothing |
| `Machine.System.IoInW` | io.c:118-133 | A word read likewise; an unclaimed port reads 0 |
| `Machine.System.IoInL` | io.c:135-150 | A dword read likewise; an unclaimed port reads 0 and only devices outside the model accept one |
| `Machine.System.IoOutB` | io.c:49-64 | A byte write goes to the first handler that claims the port; an unclaimed port ignores it, and one of a device outside the model disturbs nothing |
| `Machine.System.IoOutW` | io.c:66-82 | A word write likewise |
| `Machine.System.IoOutL` | io.c:84-100 | A dword write likewise; only devices outside the model accept one |
| `Machine.System.RegisterAll` | devices/devices.c:18-36 | After all devices have registered, the handler table is exactly the listed one, in that order |
| `Machine.System.PowerOn` | devices/devices.c:18-36 | The whole machine can be built: every device invariant holds together and every device is in its power-on state |
| `Io.PortTable.LookupHandler` | io.c:15-26 | The search returns the earliest registered handler that claims the port, or none |
| `Io.LookupIsFirstClaim` | io.c:15-26 | The recursive answer is the least index that matches |
| `Io.LookupNone` | io.c:15-26 | There is no answer exactly when no handler claims the port |
| `Io.PortTable.Register` | io.c:28-39 | A registration appends to the table and returns its slot, or changes nothing when only the last of the 128 entries is free |
| `Io.PortTable.Remap` | io.c:41-47 | A remap replaces exactly the handler in the slot |
| `Io.RegistrationKeepsClaims` | io.c:28-39 | A later registration never changes the answer for a port already claimed, and is heard on exactly its other ports |
| `Io.ReachableIffNormalised` | io.c:20-22 | A handler is reachable if and only if its base has no bit outside its mask |
| `Io.OverlapIff` | io.c:20-22 | Two reachable handlers share a port if and only if their bases agree on the mask bits they have in common |
| `Io.OnlyFloppyAndAtaOverlap` | devices/devices.c:18-36 | Of all pairs of registered handlers only floppy and disk compete, and only for ports 0x3F0-0x3F7 |
| `Io.ClaimantOwns` | devices/devices.c:18-36 | Whoever claims a port answers for it, except that the floppy takes its eight ports from the disk |
| `Io.AnswersIff` | io.c:15-26 | Over the registered table a handler answers a port if and only if it is in the table, claims the port and is not the disk on a floppy port, whatever the order of the others |
| `Io.LookupIsPortMap` | devices/devices.c:18-36 | For every port the search over the registered table finds the device of the port map, which is written by port numbers |
| `MachineRuns.OutsidePorts` | io.c:49-150 | A port of a device outside the model hands over its next answer low byte first, cut to the width, and a write changes nothing modelled |
| `MachineRuns.OtherWidths` | system.c:375-401 | An IN or OUT of any width other than 1, 2 and 4 aborts |
| `MachineRuns.UnclaimedPorts` | io.c:49-150 | A port outside the port map reads 0xFF as a byte and 0 as a word or dword, and ignores writes |
| `Startup.FirstReads` | devices/devices.c:18-36 | What the disk, floppy and keyboard ports read first after power-on, with every interrupt down |
| `Io.DeviceControlUnreachable` | devices/x86/ata/controller.c:590-592 | Every port that decodes to the disk is one of 0x1F0-0x1F7, so its device control and alternate status are out of reach |
| `AtaRuns.ReadSectors` | devices/x86/ata/controller.c:98-155 | After READ SECTORS, in LBA or CHS mode and for every count, with status polls, task-file writes and device selection anywhere between the words, the words read are a prefix of the n sectors of the zero-extended image, DRQ is up exactly until all are read, and the image is kept |
| `AtaRuns.WriteSectors` | devices/x86/ata/controller.c:441-494 | After WRITE SECTORS the image is untouched until the last word arrives, and then exactly the addressed bytes change, at once; DRQ is up exactly until then |
| `AtaRuns.WriteThenRead` | devices/x86/ata/controller.c:468-494 | What WRITE SECTORS stored, READ SECTORS at the same address returns, whatever commands and resets come in between short of further data-out words |
| `AtaRuns.ImageIsCommittedWrites` | devices/x86/ata/controller.c:468-494 | After any legal run whatsoever the image is the initial one with the completed transfers applied in order; an abandoned write leaves no trace |
| `AtaRuns.CommitsAreSentWords` | devices/x86/ata/controller.c:468-494 | The log of completed transfers is a function of the accesses: WRITE SECTORS and the words after it log the addressed block with exactly those words once all have come, and nothing before |
| `AtaRuns.CommitsAppend` | devices/x86/ata/controller.c:468-494 | The log of a run cut in two is the log of its parts, one after the other |
| `AtaRuns.ImageKeptWithoutDataOut` | devices/x86/ata/controller.c:327-386 | No run without data-out words changes the image |
| `AtaRuns.ReadProgress` | devices/x86/ata/controller.c:441-466 | Bytes delivered followed by bytes outstanding are always what the command loaded |
| `AtaRuns.WriteProgress` | devices/x86/ata/controller.c:468-494 | From any point of a transfer, the words still sent either leave it short with the image kept, or complete it |
| `AtaRuns.IdentifyDevice` | devices/x86/ata/controller.c:210-267 | IDENTIFY DEVICE delivers the identify block in the same way |
| `AtaRuns.WordReadsAreLegal` | devices/x86/ata/controller.c:441-466 | The guest can always fetch as many words as are outstanding |
| `AtaRuns.WordWritesAreLegal` | devices/x86/ata/controller.c:468-494 | The guest can always send as many words as are wanted |
| `AtaRuns.StatusAgreement` | devices/x86/ata/controller.c:43-50 | Status and alternate status, once equal, part exactly at an IDENTIFY PACKET DEVICE sent to the master |
| `AtaRuns.StatusAgreementOverRuns` | devices/x86/ata/controller.c:210-290 | Without that command they stay equal over any run |
| `AtaRuns.Initial` | devices/x86/ata/controller.c:573-586 | In the state in which the controller comes up the two status registers differ |
| `AtaRuns.AddressDecodes` | devices/x86/ata/controller.c:335-380 | For every lba below 2^28, writing 0xE0 plus the top nibble and then the three low bytes decodes back to lba in both commands, from any state |
| `AtaRuns.ChsDecodes` | devices/x86/ata/controller.c:115-125 | A cylinder, head and sector written to the task file decode to ((c*255+h)*63)+s-1, or 0xFFFFFFFF where that is -1, from any state |
| `AtaRuns.ResetSignature` | devices/x86/ata/controller.c:21-41 | What every readable register reads after a software reset |
| `AtaRuns.ChsIsMonotone` | devices/x86/ata/controller.c:115-125 | The CHS formula is strictly increasing in (cylinder, head, sector) order and never leaves 32 bits |
| `AtaRuns.ChsReaches` | devices/x86/ata/controller.c:115-125 | With four head bits and a factor of 255 heads, a block has a CHS address if and only if its head number in the 255-head geometry is below 16 |
| `AtaSpec.Step` | devices/x86/ata/controller.c:327-494 | Every access keeps: DRQ up exactly while a transfer is active, then both status registers equal and no error, an even number of bytes outstanding, at most 128K |
| `AtaSpec.CommandInv` | devices/x86/ata/controller.c:298-325 | Every command keeps it |
| `AtaSpec.DataInv` | devices/x86/ata/controller.c:441-494 | Every data word keeps it |
| `Ata.AtaController.OutB` | devices/x86/ata/controller.c:327-386 | The byte-write handler, with its real buffers and current-device pointer, refines the abstract controller |
| `Ata.AtaController.InB` | devices/x86/ata/controller.c:388-439 | The byte-read handler refines it; reading the status lowers IRQ 14, the alternate status does not |
| `Ata.AtaController.InW` | devices/x86/ata/controller.c:441-466 | The data-in handler returns the next little-endian word and refines it |
| `Ata.AtaController.OutW` | devices/x86/ata/controller.c:468-494 | The data-out handler refines it and raises IRQ 14 exactly on the last word |
| `Ata.AtaController.Execute` | devices/x86/ata/controller.c:356-361 | A command byte refines the abstract command, interrupts included |
| `Ata.AtaController.DeviceControl` | devices/x86/ata/controller.c:362-368 | A device control write resets if asked, selects the master, and falls through to the features register |
| `Ata.AtaController.constructor` | devices/x86/ata/controller.c:573-586 | The controller comes up in the initial state of the specification, with the identify data built from the disk |
| `Ata.AtaDevice.DoCommand` | devices/x86/ata/controller.c:298-325 | Each command does on the real buffers what it does abstractly |
| `Ata.AtaDevice.ReadSectors` | devices/x86/ata/controller.c:98-155 | The loaded buffer is the zero-extended window of the image |
| `Ata.AtaDevice.Load` | devices/x86/ata/controller.c:139-143 | A short read into a zeroed buffer is the zero-extended window |
| `Ata.AtaDevice.WriteSectors` | devices/x86/ata/controller.c:61-95 | A fresh buffer of the exact size is set up for the decoded block |
| `Ata.AtaDevice.ReadData` | devices/x86/ata/controller.c:451-465 | One word leaves the buffer; DRQ drops exactly at the last, and the end of an inner block changes nothing visible |
| `Ata.AtaDevice.WriteData` | devices/x86/ata/controller.c:473-493 | One word enters the buffer; the file is written exactly when it is full |
| `Ata.AtaDevice.SoftReset` | devices/x86/ata/controller.c:21-41 | The register signature after reset; any transfer is dropped |
| `Ata.AtaDevice.FillIdentify` | devices/x86/ata/controller.c:157-207 | The identify array built in place is the closed form, word by word |
| `Ata.AtaDevice.SwapModelNumber` | devices/x86/ata/controller.c:198-205 | The in-place loop swaps exactly words 27 to 46 |
| `Ata.IdentifyDecodes` | devices/x86/ata/controller.c:180-207 | A driver gets the sector count back from words 60-61 and 57-58, and the model number high byte first |
| `Ata.IdentifyNumbers` | devices/x86/ata/controller.c:157-196 | Every number in the 512 bytes of the identify block, by its position: geometry, sector counts, flags, and zero elsewhere |
| `Ata.IdentifyText` | devices/x86/ata/controller.c:183-205 | Every text byte of it: serial number and firmware in order, the model with swapped pairs |
| `Ata.GeometryCoversDisk` | devices/x86/ata/controller.c:164-177 | The reported geometry covers the disk up to less than one cylinder if and only if it has fewer than 61931520 sectors; beyond, the cylinder word wraps |
| `Image.ReadIntoZeroed` | devices/x86/ata/controller.c:139-143 | A short read over zeros is the zero-extended window |
| `Image.WriteIsPointwise` | devices/x86/ata/controller.c:481-487 | A file write changes exactly its range of the zero-extended image |
| `Image.ReadBack` | devices/x86/ata/controller.c:481-487 | What was written is what the window shows |
| `FdcRuns.FloppyReadEndToEnd` | devices/x86/floppy.c:110-145 | Starting before the channel is programmed: DMA and page writes in any interleaving, the nine READ DATA bytes and the result reads put image bytes [512*lba, 512*(lba+n)) at guest address D, change no other byte of guest memory, yield the seven result bytes in order, and hold IRQ 6 until the last is read |
| `FdcRuns.ReadDataMovesSectors` | devices/x86/floppy.c:110-145 | The same from a programmed channel, with status reads and rate writes anywhere; the transfer fits both the 64K buffer and memory |
| `FloppyDriver.DriverReadsSectors` | devices/x86/floppy.c:110-193 | From any machine state with the controller ready and the flip-flops even: channel setup on ports 0x04, 0x81 and 0x05, nine bytes to 0x3F5 and `REP INSB` of seven bytes put the addressed sectors at guest address D, change no other byte of memory and no other device, return the result bytes, and leave the controller ready for the next read |
| `FloppyDriver.InterleavedRead` | devices/x86/floppy.c:110-193 | The same when accesses to any other device come between any of these, for every legal machine run whose floppy and DMA accesses are those |
| `FloppyDriver.DriverExecutes` | devices/x86/floppy.c:195-248 | The driver carries out exactly the command it spells, in or beyond the image |
| `FloppyDriver.StaleRead` | devices/x86/floppy.c:130-132 | A read past the end does deliver stale bytes: on a one-sector diskette, reading sector 1 and then sector 2 puts sector 1 in memory again |
| `FloppyDriver.LiftRun` | io.c:49-150 | A legal run of floppy and DMA accesses is a legal run of port accesses with the same effect and the same bytes |
| `FdcRuns.ReadDataIsPointwise` | devices/x86/floppy.c:114-145 | READ DATA for every sector and DMA count: the sector buffer becomes the image bytes over the old ones, exactly the counted bytes of it go to memory byte by byte, and nothing else changes but the named registers |
| `FdcRuns.OffsetWritten` | devices/x86/floppy.c:96-130 | The byte offset of a cylinder, head and sector written out, with the 32-bit wrap of sector 0 of the first track |
| `FdcRuns.ReadPastEndIsStale` | devices/x86/floppy.c:130-132 | Beyond the end of the image guest memory gets what the sector buffer held; the read is that of the zero-extended image if and only if those stale bytes are zero |
| `FdcRuns.OverlaidIsWindow` | devices/x86/floppy.c:130-132 | Image bytes over old bytes are the zero-extended image if and only if the old bytes left over are zero |
| `FdcRuns.StreamIsParsed` | devices/x86/floppy.c:195-248 | Over any legal run, with any number of resets, the commands executed with their parameter bytes are the recursive parses of the byte streams between resets, each reset dropping exactly the partial command; status reads, result reads, register writes and DMA programming may come anywhere |
| `FdcRuns.ResetDropsPartial` | devices/x86/floppy.c:86-94 | A reset drops exactly the partial command: what follows is parsed from scratch |
| `FdcRuns.CommandsEnd` | devices/x86/floppy.c:64-78 | Every legal run with as many FIFO accesses as the current command still needs, at most 15, passes through a state in which the controller is ready |
| `FdcRuns.CommandIsBounded` | devices/x86/floppy.c:211-241 | A command takes at most 9 FIFO writes and 7 FIFO reads, and unless it is reset it is over exactly when it has had as many of each as its opcode says |
| `FdcRuns.LengthIsTable` | devices/x86/floppy.c:211-231 | Command lengths by low nibble: 6 takes 9 bytes, 7 and 10 take 2, 8 takes 1, 15 takes 3 |
| `FloppyPorts.CommandCollects` | devices/x86/floppy.c:233-241 | Until its last byte a command of 9, 2 or 3 bytes is only collected, port 0x3F4 has its busy bit up, and nothing else changes |
| `FloppyPorts.Recalibrates` | devices/x86/floppy.c:146-154 | RECALIBRATE through port 0x3F5: after the second byte cylinder 0, status 0x80 and the interrupt |
| `FloppyPorts.Seeks` | devices/x86/floppy.c:178-191 | SEEK through port 0x3F5: after the third byte head and cylinder as given, status 0xA0 and the interrupt |
| `FloppyPorts.SensesInterrupt` | devices/x86/floppy.c:155-163 | SENSE INTERRUPT: one byte, the interrupt lowered, st0 and cylinder read back |
| `FloppyPorts.ReadsId` | devices/x86/floppy.c:164-177 | READ ID: two bytes, the interrupt up, seven result bytes in order |
| `FloppyPorts.SeekIsReported` | devices/x86/floppy.c:155-191 | After a SEEK, SENSE INTERRUPT and READ ID report the cylinder and head asked for |
| `FloppyPorts.StatusReads` | devices/x86/floppy.c:58-60 | What port 0x3F4 reads in each phase |
| `FloppyPorts.OutputWrite` | devices/x86/floppy.c:199-207 | A write to port 0x3F2 reads back without bit 2; with bit 2 clear the controller is ready with status 0x80 and its interrupt up, else nothing else changes |
| `FloppyPorts.RateWrite` | devices/x86/floppy.c:242-244 | A write to port 0x3F7 sets the rate register and the two rate bits of the data-rate select, and no port read shows it |
| `FdcRuns.RunCost` | devices/x86/floppy.c:64-78 | While a command is under way every FIFO write and read is accounted for; a reset can only save some |
| `FdcRuns.ResultBytes` | devices/x86/floppy.c:64-78 | Result bytes come out in order and the interrupt drops exactly with the last |
| `FdcRuns.CommandBytes` | devices/x86/floppy.c:208-241 | Parameter bytes that trickle in execute the command they spell |
| `FdcRuns.ProgramChannel` | devices/x86/i8237-dma.c:81-105 | Any run whose accesses to the address, count and page registers are the right ones programs the channel, however they interleave |
| `FdcRuns.ProgrammingKeepsTheRest` | devices/x86/i8237-dma.c:67-108 | Programming leaves the floppy controller and memory alone |
| `FdcRuns.BlockIsBijection` | devices/x86/floppy.c:96-106 | The block formula is a bijection from (c, h<2, 1<=s<=18) onto the naturals |
| `FdcSpec.Step` | devices/x86/floppy.c:54-248 | Every access keeps: a partial command is shorter than its table length, a result has one to seven bytes |
| `Floppy.FloppyController.InB` | devices/x86/floppy.c:54-84 | The read handler over the shared array and index refines the phase machine |
| `Floppy.FloppyController.OutB` | devices/x86/floppy.c:195-248 | The write handler refines it |
| `Floppy.FloppyController.WriteFifo` | devices/x86/floppy.c:208-241 | A FIFO byte is appended to the command, and executes it when it is the last |
| `Floppy.FloppyController.ExecuteCommand` | devices/x86/floppy.c:110-193 | The command executes with exactly the abstract effect on controller and memory |
| `Floppy.FloppyController.ReadData` | devices/x86/floppy.c:114-145 | READ DATA on the real arrays has the abstract effect |
| `Floppy.FloppyController.MoveSectors` | devices/x86/floppy.c:128-132 | File to buffer to guest memory, each byte exactly placed |
| `Floppy.FloppyController.DoReset` | devices/x86/floppy.c:86-94 | A reset readies the controller and clears the rate and output registers but not the position |
| `Floppy.FloppyController.WriteDigitalOut` | devices/x86/floppy.c:199-207 | A write with bit 2 clear resets and interrupts; the bit itself is never stored |
| `DmaSpec.RegistersIndependent` | devices/x86/i8237-dma.c:39-101 | Over every access sequence each register evolves as if the accesses to the others had never been made |
| `DmaSpec.PairReadsBack` | devices/x86/i8237-dma.c:53-55 | From even parity a low/high pair reads back low, high with parity restored, whatever is done to other registers in between |
| `FloppyPorts.DmaReadsBack` | devices/x86/i8237-dma.c:53-86 | Through ports 0 to 6: from even parity a value written low byte first reads back low byte first |
| `FloppyPorts.SecondDmaAccess` | devices/x86/i8237-dma.c:45-51 | The second controller: register r at ports 0xC0+2r and 0xC1+2r, bytes alternating, apart from the first controller |
| `FloppyPorts.DmaAccepts` | devices/x86/i8237-dma.c:40-100 | Exactly which byte accesses to ports 0x00-0x0F do not abort |
| `FloppyPorts.PageAccepts` | devices/x86/i8237-dma.c:103-113 | A page register at 0x80-0x8E takes the byte written; every other byte access to 0x80-0x8F aborts |
| `FloppyPorts.AcceptedAccesses` | devices/x86/floppy.c:195-246 | Exactly which byte accesses to ports 0x3F0-0x3F7 do not abort, and which bytes start a command |
| `FloppyPorts.DmaControls` | devices/x86/i8237-dma.c:87-97 | Ports 0x0A, 0x0B, 0x0C and 0x0D mask, set the mode, bring registers 0 and 1 back to their low byte (0xFF only, 0 doing nothing, any other value aborting) and clear everything |
| `FloppyPorts.DmaCommandReads` | devices/x86/i8237-dma.c:56-57 | Ports 0x08 and 0xD0 read 4 |
| `DmaSpec.FlipFlopResetIsPartial` | devices/x86/i8237-dma.c:93-97 | The flip-flop reset brings every register to its low byte if and only if registers 2 to 6 were there already |
| `Dma.DmaController.InB` | devices/x86/i8237-dma.c:39-65 | The read handler with its free-running counters refines the register machine |
| `Dma.DmaController.OutB` | devices/x86/i8237-dma.c:67-101 | The write handler refines it; the partial clear of the counter array included |
| `Dma.I8237.PageOutB` | devices/x86/i8237-dma.c:103-108 | A page write sets that page register and no other |
| `Dma.I8237.TransferFromDevice` | devices/x86/i8237-dma.c:115-143 | Count+1 bytes go to the 24-bit destination, in whichever of the two host blocks it lies, and nothing else in memory changes |
| `Machine.System.InjectKey` | devices/x86/i8042.c:35-53 | A key from the viewer thread is one step of the whole machine and touches the keyboard controller only |
| `KeyboardSpec.RoutingIsByHistory` | devices/x86/i8042.c:246-268 | In every interleaving of guest accesses and injected keys a data byte is the parameter of the latest parameter command if none came since, else it belongs to the keyboard, whose bytes pair up by themselves; the command byte is the last parameter given to 0x60 |
| `KeyboardSpec.AwaitingMeans` | devices/x86/i8042.c:253-257 | A parameter is pending if and only if some parameter command has no data byte after it |
| `KeyboardSpec.CommandByteRoundTrip` | devices/x86/i8042.c:85-94 | Command 0x60 with v and then 0x20 reads v, from any state |
| `KeyboardSpec.InjectedKeyReplacesAnswer` | devices/x86/i8042.c:35-53 | Between command 0x20 and the read of its answer any injected keys and status reads may come: the byte read is the scan code of the last key, so the command byte arrives if and only if no key came or the last one equals it |
| `KeyboardSpec.KeysReplaceAnswers` | devices/x86/i8042.c:35-53 | From any state, after any run of injected keys and status reads, only the last key is left to be read, alone, and announced; without a key everything is as before |
| `KeyboardPorts.KeyIsSeen` | devices/x86/i8042.c:35-53 | After a key, from any state, and any polls and accesses to other devices: port 0x64 reads 1, IRQ 1 is up, and port 0x60 reads the scan code, its top bit set if and only if the key was released or the code had it |
| `KeyboardPorts.PressIsNotRelease` | devices/x86/i8042.c:39-45 | Press and release of an ordinary key deliver code and code+0x80 |
| `KeyboardPorts.PortsRead` | devices/x86/i8042.c:205-235 | Port 0x64 reads 1 while something waits, else 0; port 0x60 the first waiting byte, or 0 |
| `KeyboardPorts.DataRead` | devices/x86/i8042.c:221-229 | A data read takes one byte; after the last one port 0x64 reads 0 and IRQ 1 is down |
| `KeyboardPorts.ControllerAccepts` | devices/x86/i8042.c:85-133 | Exactly which controller commands are accepted |
| `KeyboardPorts.ControllerAnswers` | devices/x86/i8042.c:87-115 | 0xAA, 0xAB and 0xA9 answer 0x55, 0x00 and 0x01, and 0x20 the command byte, at once and without an interrupt |
| `KeyboardPorts.ControllerIgnores` | devices/x86/i8042.c:105-130 | 0xAD, 0xAE and 0xFF change nothing |
| `KeyboardPorts.ControllerTakes` | devices/x86/i8042.c:69-83 | 0x60, 0xD1, 0xD3 and 0xD4 take the next data byte whatever it is and answer nothing; 0x60 keeps it |
| `KeyboardPorts.KeyboardAccepts` | devices/x86/i8042.c:152-198 | Exactly which keyboard commands are accepted with nothing pending |
| `KeyboardPorts.KeyboardAnswers` | devices/x86/i8042.c:152-185 | Which of them are acknowledged with 0xFA and which wait for a parameter |
| `KeyboardPorts.ParameterAcknowledged` | devices/x86/i8042.c:135-150 | The parameter of 0xED and 0xF0 is acknowledged with 0xFA |
| `KeyboardPorts.KeyboardResets` | devices/x86/i8042.c:186-193 | A reset answers 0xFA, then 0xAA announced by an interrupt, and then nothing is left |
| `KeyboardSpec.ReadingCommandByteBlocksData` | devices/x86/i8042.c:87-94 | Reading the command byte leaves a parameter pending: no data byte can be written until a parameter command other than 0x20 is sent |
| `KeyboardSpec.Step` | devices/x86/i8042.c:200-268 | Every access and every injected key keeps: at most two bytes wait, a full output buffer is not empty, IRQ 1 means a full buffer |
| `I8042.Keyboard.InB` | devices/x86/i8042.c:200-235 | The read handler over the real buffer and index refines the queue |
| `I8042.Keyboard.OutB` | devices/x86/i8042.c:246-268 | The write handler refines it |
| `I8042.Keyboard.HandleCommand` | devices/x86/i8042.c:85-133 | Controller commands refine it; 0x20 falls through to 0x60 |
| `I8042.Keyboard.HandleKeyboardCommand` | devices/x86/i8042.c:152-198 | Keyboard commands refine it |
| `I8042.Keyboard.Inject` | devices/x86/i8042.c:35-53 | An injected key refines it as one atomic step |
| `VgaRuns.PlaneByte` | devices/x86/vga/ram.c:56-84 | Over any history of stores, byte and word register writes, each plane byte is what the last store put there that covered it while the programmed map mask selected the plane, else the initial byte |
| `VgaRuns.RunIsEffects` | devices/x86/vga/registers.c:28-45 | Registers and planes together refine the plane memory under the history of map-mask changes, which are the sequencer writes that hit register 2 |
| `VgaMemory.ByteIsLastWrite` | devices/x86/vga/ram.c:56-84 | The same for a history of stores and mask changes |
| `VgaMemory.StoreIsPointwise` | devices/x86/vga/ram.c:56-84 | A store reaches byte i of plane p if and only if bit p of the mask is set and i lies in it |
| `VgaMemory.WideWriteIsByteWrites` | devices/x86/vga/ram.c:66-84 | A wide store is its little-endian byte stores in sequence, in every plane |
| `Vga.VgaContext.WriteB` | devices/x86/vga/ram.c:56-64 | A byte store reaches exactly the selected planes and no register |
| `Vga.VgaContext.WriteW` | devices/x86/vga/ram.c:66-74 | A word store likewise, little-endian |
| `Vga.VgaContext.WriteL` | devices/x86/vga/ram.c:76-84 | A dword store likewise |
| `Vga.VgaContext.ReadB` | devices/x86/vga/ram.c:12-22 | A byte read sees plane 0 |
| `Vga.VgaContext.ReadW` | devices/x86/vga/ram.c:24-32 | A word read returns the little-endian bytes of plane 0 |
| `Vga.VgaContext.ReadL` | devices/x86/vga/ram.c:34-46 | A dword read likewise |
| `Vga.VgaContext.ReadQ` | devices/x86/vga/ram.c:48-54 | An 8-byte read likewise |
| `Vga.VgaContext.RegOutB` | devices/x86/vga/registers.c:151-195 | The byte-write handler refines the register file and leaves the planes alone |
| `Vga.VgaContext.RegOutW` | devices/x86/vga/registers.c:197-212 | A word write is index then data |
| `Vga.VgaContext.SequencerWrite` | devices/x86/vga/registers.c:28-45 | Only registers 1 to 4 store, and the map mask keeps four bits |
| `VgaRegs.WritePorts` | devices/x86/vga/registers.c:150-196 | By port number, exactly which byte writes do not abort, and the effect of the ports outside the index, data and palette groups |
| `VgaRegs.WordWriteSetsOneRegister` | devices/x86/vga/registers.c:197-212 | A word write to an index port sets exactly the register it names, whatever index was latched, and none for an invalid index |
| `VgaRegs.IndexThenData` | devices/x86/vga/registers.c:151-195 | Index and data written to ports 0x3C4/5, 0x3CE/F and 0x3D4/5 set exactly the register named; sequencer register 0 is dropped and the map mask keeps four bits |
| `VgaRegs.PaletteLoads` | devices/x86/vga/registers.c:47-50 | Selecting entry n and sending bytes fills the palette from entry n on and touches nothing else |
| `VgaRegs.Step` | devices/x86/vga/registers.c:151-195 | Every accepted write keeps the latched indices in range |
| `VgaViewer.Viewer.UpdateTextmode` | devices/x86/vga/viewer.c:144-163 | For every font, palette and start address whose cells lie in the plane, each of the 16 rows of each of the 80x25 cells is eight pixels in the two colours of the attribute, written out in palette components, that spell the font byte of the character from its most significant bit on the left |
| `VgaViewer.Viewer.UpdateGraphics` | devices/x86/vga/viewer.c:165-206 | For every start address every pixel is, in palette components, the colour named by plane (x/2)%4 at (y/2)*320+x/2+start |
| `VgaViewer.GlyphRowIsShown` | devices/x86/vga/viewer.c:90-112 | A glyph row drawn in two colours spells its font byte, most significant bit on the left, foreground from the low half of the attribute |
| `VgaViewer.GraphicsPixelIsRgb` | devices/x86/vga/viewer.c:192-204 | A graphics pixel in palette components and plane bytes |
| `VgaViewer.Viewer.DrawGlyphAt` | devices/x86/vga/viewer.c:77-112 | The moving pointer paints exactly the 8x16 pixels of the cell and no other, and its rows spell the font bytes of the character in the two colours |
| `VgaViewer.Viewer.DrawBlock` | devices/x86/vga/viewer.c:201-204 | A source pixel is doubled both ways and nothing else is painted |
| `VgaViewer.Viewer.Refresh` | devices/x86/vga/viewer.c:326-330 | One turn of the viewer loop renders text or graphics as register 6 of the graphics controller says |
| `Screen.GuestTextShows` | devices/x86/vga/viewer.c:149-159 | With the ROM off video memory and plane 0 selected, a guest store at 0xB8000 plus the cell offset shows the glyph in that cell and changes no other pixel |
| `Screen.GuestPixelShows` | devices/x86/vga/viewer.c:192-204 | A guest store at 0xA0000 plus the offset of a source pixel shows there if its plane is selected, and nowhere else |
| `Screen.RomHidesScreen` | mmio.c:11-30 | With the ROM on top of video memory no guest store reaches the screen |
| `Screen.ShowCharacter` | devices/x86/vga/viewer.c:323-330 | A guest store through the memory decoder followed by a refresh puts the glyph on the real frame buffer |
| `VgaViewer.TextFitsIff` | devices/x86/vga/viewer.c:149-155 | All text cells lie in the plane if and only if the start address is at most 14384 |
| `VgaViewer.TextWriteShows` | devices/x86/vga/viewer.c:149-159 | Storing a character and attribute through plane 0 shows that glyph in that cell and changes no other pixel |
| `VgaViewer.GraphicsWriteShows` | devices/x86/vga/viewer.c:192-204 | A byte stored at start+320y+x shows at source pixel (x,y) if plane x%4 is selected, and nowhere else |
| `MmioSpec.NeverLegacy` | devices/x86/vga/rom.c:51-59 | No history of configuration writes puts the ROM at 0xC0000 |
| `MmioSpec.WriteMovesRom` | devices/x86/vga/rom.c:69-94 | An odd value other than 0xC0001 written to register 0x30 puts the ROM at that value less one; every other write, the sizing probe among them, leaves it where it was |
| `MmioSpec.DecodeIsWindows` | mmio.c:11-30 | Below 4G the ROM answers exactly in its own 128K window and only at a nonzero aligned base, and video memory exactly in its window unless the ROM lies on top of it |
| `MmioSpec.MovingTheRom` | devices/x86/vga/rom.c:69-94 | Moving the ROM clear of video memory makes it answer in the new window, empties the old one and leaves video memory where it was |
| `MmioSpec.FirstIsLeast` | mmio.c:11-30 | The first device in the list whose window holds the address answers |
| `Mmio.MmioList.GetDevice` | mmio.c:11-30 | The walk over the linked list returns the first match, skipping bases of zero |
| `Mmio.MmioList.Register` | mmio.c:38-67 | Registration appends at the tail of the list in place |
| `Mmio.ExpansionRom.ConfigWriteL` | devices/x86/vga/rom.c:69-94 | A configuration write updates the block and the base as the history says; the sizing probe reports 128K and a base address register loses its low byte |
| `Mmio.ExpansionRom.RemapBios` | devices/x86/vga/rom.c:51-59 | The base moves anywhere but to 0xC0000 |
| `Mmio.ExpansionRom.Read` | devices/x86/vga/rom.c:164-208 | The shadow at the legacy base, the ROM elsewhere |
| `Mmio.ExpansionRom.Write` | devices/x86/vga/rom.c:122-162 | The shadow changes at the legacy base only |
| `Mmio.MmioSpace.Read` | mmio.c:106-136 | A read puts the ROM bytes, the bytes of plane 0, or nothing at the front of the caller's buffer, as the decoder says; of an 8-byte read of video memory only the lower half |
| `Mmio.MmioSpace.Write` | mmio.c:74-104 | No write ever changes the ROM or its shadow; one that reaches video memory is a masked plane write and nothing else, and an 8-byte one does nothing |
| `Mmio.MmioSpace.constructor` | devices/x86/vga/vga.c:19-22 | The ROM is registered before video memory |
| `Pci.PciBus.Register` | devices/x86/pci.c:183-203 | The next device gets the next slot and number; a full table refuses it |
| `Pci.PciBus.GetDevice` | devices/x86/pci.c:20-36 | The search for the latched address agrees with indexing by device number: bus 0, function 0, number below the count, else none |
| `Pci.PciBus.WriteAddress` | devices/x86/pci.c:134-142 | The latch holds the fields of the address written |
| `Pci.AddressFields` | devices/x86/pci.c:136-142 | Enable bit, bus, device, function and register are decoded from bits 31, 16-19, 11-15, 8-10 and 0-7 |
| `Pci.PciBus.ReadAddress` | devices/x86/pci.c:67-78 | The read composes the latch without the function number |
| `Pci.AddressReadsBack` | devices/x86/pci.c:67-78 | What comes back lacks exactly bits 8-10 and 20-30, and equals what was written if and only if they were zero |
| `Pci.PciBus.ReadConfigL` | devices/x86/pci.c:79-92 | A 32-bit read at any of the four data ports stays inside the 304-byte block and returns its little-endian bytes; an absent device reads 0xFFFF |
| `MemorySize.LowMemoryAgrees` | devices/x86/cmos.c:177-195 | From 16M up, 16M plus 64K times registers 0x34/0x35 is the end of the slot at 1M |
| `MemorySize.HighMemoryAgrees` | devices/x86/cmos.c:203-226 | Above 0xE0000000, registers 0x5b-0x5d times 64K are the length of the slot at 4G if and only if it is below 2^40 |
| `MemorySize.KilobytesAgree` | devices/x86/cmos.c:159-176 | Registers 0x30/0x31 agree with the slot if and only if there is less than 80M |
| `MemorySize.RamIsConserved` | system.c:87-102 | All memory above the first megabyte is mapped if and only if no hole is needed; otherwise exactly one megabyte is lost |
| `MemorySize.SlotsAreDisjoint` | system.c:79-101 | The requested slots never overlap |
| `MemorySize.GetLowMemFindsSlot` | system.c:58-68 | The host pointer lands in the slot of the guest address if and only if the address is below 0xA0000 or in 0xC0000-0xDFFFF |
| `MemorySize.GuestMemory.MapRam` | system.c:70-107 | The slots requested, their number, and the size reported to the devices |

## Left out

- MachineSpec.Step: devices of the handler table that are not modelled as port devices (CMOS, PCI, VGA, serial and so on) answer reads with an arbitrary sequence of values and do nothing else; their own state, modelled apart from the machine where it is, is not part of whole-machine runs.
- Machine.System.HandleIn: `handle_io` chooses the direction from a field of the run page; here the two loops are two methods.
- Io.PortTable.Register: a handler is a device number in place of the C function pointers, and the returned handle is the slot index.
- Dma.DmaController.InB: the flip-flop counters are unbounded, where the C ints overflow after 2^31 accesses.
- Dma.I8237.TransferFromDevice: destinations outside the two host blocks make the code write beyond them and are not legal; the second controller and other channels are never transferred to; whether the guest sees the second block at 0xC0000 is the kernel's decision, as a BIOS slot is requested there too.
- AtaSpec.Step: the DVD-ROM branches are absent because no such device is ever created; soft reset before any read buffer exists is not legal, since the code would clear through a null pointer.
- Floppy.FloppyController.DoReset: the two status registers sra and srb are written here and read nowhere, so they are not modelled.
- Floppy.FloppyController.MoveSectors: `fread` hands over the bytes of a trailing partial sector too; the seek offset is reduced modulo 2^32 as the C expression is.
- KeyboardSpec.Step: `kbd_inject` runs on another thread without locks; it is one atomic step, so torn interleavings inside it are not covered.
- Vga.VgaContext.RegOutB: register reads, the retrace bit and palette writes past the last entry are not modelled.
- Mmio.MmioSpace.Read: accesses that cross the end of a window, or whose address aliases into one from above 4G, read or write outside the host buffers in the code and are not legal, nor are 8-byte accesses to the ROM, which has no handler for them; the mask ~0x1FFFF is written as rounding down modulo 2^32.
- Mmio.MmioSpace.Write: the same restrictions.
- Mmio.ExpansionRom.ConfigWriteL: byte and word configuration writes are no-ops or aborts in the code and are left out, as are the disk's own PCI configuration handlers.
- Pci.PciBus.ReadConfigL: byte and word reads, and writes, which only forward to the device, are left out.
- MemorySize.GuestMemory.MapRam: only the requests made by `map_ram` are listed; the BIOS slots and the success of the kernel calls are not.
- VgaViewer.Viewer.UpdateTextmode: the pitch is fixed at 640 words and the font is a parameter of 256 glyphs of 16 rows; the unreachable cursor drawing is omitted.
- KVM system calls, the run loop, CPUID setup and BIOS loading are foreign calls.
- The SDL window, event polling, key table and dump functions are user interface.
- Serial, parallel, BIOS debug, PS/2 POS, paravirtual configuration and VBE devices appear only in the handler table.
- The CMOS clock and the constant CMOS registers read the wall clock or return constants.
- Logging.
