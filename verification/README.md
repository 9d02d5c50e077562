# PRU-ICSS and user-LED drivers, modelled in Dafny

This project models the kernel side of a BeagleBone-AI style board support
repository. There are three kernel modules and two real-time (RTDM) drivers:

- `pru/pru_ctrl.c` claims the four PRU-ICSS1 physical ranges: the clock-control
  register, the configuration block, PRU0 instruction RAM and PRU0 data RAM.
  It also maps those ranges into a device context, and it drives the
  clock-gating request field and the status field of the clock-control
  register.
- `pru/pru_xeno.c` is the RTDM driver built on top of it:
  - open enables the PRU and waits for it to settle;
  - close disables it;
  - read_rt and write_rt copy bytes between the caller and the selected RAM
    window, and ioctl_rt selects that window;
  - the module's init and exit own the four reservations.
- `pru/pru.c` is a plain module that reserves and maps the whole PRU-ICSS1
  range while it is loaded.
- `xenomai/led/led.c` is the RTDM driver for the user LED. Its open and close
  manage the GPIO data-out and output-enable registers; it also has read,
  write and ioctl.
- `led/led.c` is a plain module that turns the LED on once at load time,
  inside a fall-through release ladder.

The kernel services these drivers call are modelled once, in `kernel.dfy`, by
the `Authority` class:

- `request_mem_region` and `release_mem_region` act on a set of reserved
  ranges;
- `ioremap` and `iounmap` act on a multiset of live mappings;
- `ioread32` and `iowrite32` act on a map of 32-bit registers;
- the two PRU RAM windows are byte arrays.

Which reservations and mappings the kernel refuses is fixed by two fault
sets, the fault oracle. Every successful call also appends an `Event` to a
ghost log. `Replay` turns a log back into the holdings it produces. That is
how the "gives back exactly what it took" properties are stated: each driver
operation's contract names the exact events it logs, and lemmas show that
replaying those events restores the holdings.

Each source file has its own module: `PruCtrl`, `PruXeno`, `Pru`, `XenoLed`
and `Led`. State that the C code updates in place is modelled as classes:

| Dafny class | C structure |
|---|---|
| `PruContext` | `struct pru_context` |
| `PruDevice` | `pru_device.device_data` |
| `PruModule` | `ppru_iomem` |
| `LedContext` | `struct led_context` |

Functions that only compute a value are modelled as Dafny functions. The
wait loop of `pru_wait_for_device_state` and the fill loop of `led_read` are
methods with loop invariants. The byte copies of `pru_read_rt` and
`pru_write_rt` are `forall` statements over the arrays.

Two properties of the code are worth knowing before the table:

- **The wait loop and `pru_get_device_state` decode status bits 16-17
  differently.** `pru_wait_for_device_state` (`pru/pru_ctrl.c:123`) treats
  the device as enabled only when bits 16 and 17 are both clear.
  `pru_get_device_state` (`pru/pru_ctrl.c:137`) reports DISABLED only when
  both are set. `PruCtrl.DecodesDisagree` states exactly where the two
  differ.
- **`pru_init_context` only maps.** It reserves nothing; the reservations
  are made by `pru_claim_memory_regions` and by `pru_init`.

## Model

| member | source | states |
|---|---|---|
| Kernel.UnwindRestores | pru/pru_ctrl.c:11-36 | Reserving free ranges in order and then releasing them newest first, as the failure ladders of pru_claim_memory_regions, pru_init's claim and led/led.c do, restores the holdings exactly. |
| Kernel.ReleaseInOrderRestores | pru/pru_ctrl.c:39-45 | Releasing in acquisition order, as pru_release_memory_regions does after a full claim, also restores the reservations. |
| Kernel.PutDropFour | pru/pru_ctrl.c:57-62 | Unmapping the four pointers pru_init_context obtained (null ones skipped) undoes exactly the four mappings, whichever of them succeeded. |
| PruCtrl.GrantedWindows | pru/pru_ctrl.c:11-22 | How far the claim ladder gets for each combination of already-held or refused ranges: 0 when CLK is refused, and so on up to 4 when all are granted. |
| PruCtrl.ClaimChain | pru/pru_ctrl.c:11-36 | For any request list without repeats: success iff every request is granted, which adds the ranges and logs their reservations. Otherwise the reservations are unchanged and the log holds the granted prefix reserved and then released newest first. |
| PruCtrl.ClaimAbove | pru/pru_ctrl.c:13-36 | One rung of the claim ladder after range a was granted: success iff the rest is granted. Otherwise the rest's granted prefix is unwound and a is released last, leaving the reservations as they were before a. |
| PruCtrl.ClaimMemoryRegions | pru/pru_ctrl.c:7-37 | Returns 0 iff all four of CLK, CFG, IRAM and DRAM are granted, leaving them reserved. Otherwise returns -ENOMEM with the reservations unchanged, having released the granted prefix newest first. |
| PruCtrl.ReleaseMemoryRegions | pru/pru_ctrl.c:39-45 | Removes the four ranges from the reservations and logs their releases in acquisition order: CLK, CFG, IRAM, DRAM. |
| PruCtrl.FreeContext | pru/pru_ctrl.c:92-103 | A null context changes nothing. Otherwise exactly the non-null pointers are unmapped, in field order, all four are nulled, and ram_target is kept. |
| PruCtrl.InitContext | pru/pru_ctrl.c:47-90 | Null context: -EINVAL and nothing changes. Index other than PRU_ICSS1: -EINVAL, all pointers null, nothing mapped. PRU_ICSS1: 0 iff all four ioremaps succeed, leaving the context live with ram_target IRAM; otherwise -EIO, with every successful mapping unmapped again and all pointers null. |
| PruCtrl.InitIcss1 | pru/pru_ctrl.c:56-66 | The PRU_ICSS1 branch: the four mappings are issued unconditionally. It succeeds iff all four are non-null; otherwise the mappings it obtained are unmapped again. |
| PruCtrl.MapWindows | pru/pru_ctrl.c:57-62 | Each pointer is exactly what ioremap of its own range gives, and the live mappings gain exactly the non-null ones, in order. |
| PruCtrl.FreeNothing | pru/pru_ctrl.c:74-82 | Freeing four null pointers (the ICSS2 and unknown-index paths) changes neither the mappings nor the log. |
| PruCtrl.RequestWord | pru/pru_ctrl.c:107-111 | The request word keeps every bit of the old value except bits 0-1. Those bits become 2 for ENABLED and 0 for DISABLED. |
| PruCtrl.ClearIsDisable | pru/pru_xeno.c:60-63 | pru_close's inline `tmp &= ~0x3` is the same write as requesting DISABLED. |
| PruCtrl.LastRequestWins | pru/pru_ctrl.c:105-112 | Two successive requests leave the register as the second one alone would. |
| PruCtrl.SetDeviceStateAsync | pru/pru_ctrl.c:105-112 | The clock-control register becomes the request word for the target state. No other register changes. |
| PruCtrl.PolledEnabled | pru/pru_ctrl.c:123 | The wait loop's test: enabled iff both status bits 16 and 17 are clear. |
| PruCtrl.DecodeState | pru/pru_ctrl.c:137 | pru_get_device_state's decoding: DISABLED iff both status bits are set. |
| PruCtrl.DecodesDisagree | pru/pru_ctrl.c:123-137 | The two decodings disagree exactly when one status bit is set. When the wait test says enabled, so does the single read. |
| PruCtrl.GetDeviceState | pru/pru_ctrl.c:135-139 | One read of the clock register, decoded by DecodeState. |
| PruCtrl.FirstStop | pru/pru_ctrl.c:121-130 | The index of the first poll after which the do-while stops: the state was reached or the deadline passed. The loop continued after every earlier poll. |
| PruCtrl.Remaining | pru/pru_ctrl.c:114-133 | A non-negative result means the target state was seen at the last poll. A last poll that missed the target gives a negative result. A clock already past the deadline stops after exactly one poll. |
| PruCtrl.WaitForDeviceState | pru/pru_ctrl.c:114-133 | Polls at least once, stops at FirstStop, and returns the timeout minus the elapsed time at that poll. A non-negative return means the target was reached. |
| PruXeno.TargetRoundTrip | pru/pru_xeno.c:122-123 | Each RAM window is selected by exactly one ioctl request. |
| PruXeno.Open | pru/pru_xeno.c:17-53 | A failed context init returns -EIO with nothing left mapped and the clock register untouched. A wait that times out requests DISABLED (the ENABLED request is overwritten), unmaps all four and returns -EIO. Otherwise it returns 0 with the context live, ram_target IRAM and ENABLED requested. |
| PruXeno.Abandon | pru/pru_xeno.c:41-42 | The timeout path: request DISABLED, then unmap the four live pointers and null them. |
| PruXeno.Close | pru/pru_xeno.c:55-67 | Clears the request bits of the clock register, keeping the others, then frees the context as pru_free_context does. |
| PruXeno.ReadRt | pru/pru_xeno.c:69-84 | Null context: -EINVAL. Failed allocation: -ENOMEM. Failed copy: that error. Otherwise the caller receives exactly the first min(window, size) bytes of the selected window, and that count is returned. |
| PruXeno.WriteRt | pru/pru_xeno.c:91-112 | Failed allocation or copy: the window is untouched and the error is returned. Otherwise the first min(size, window) bytes of the window become the caller's bytes, the rest are unchanged, and that count is returned. |
| PruXeno.Read | pru/pru_xeno.c:86-89 | The non-real-time read returns 0. |
| PruXeno.Write | pru/pru_xeno.c:113-117 | The non-real-time write returns 0. |
| PruXeno.IoctlRt | pru/pru_xeno.c:119-128 | The two access requests select their window and return 0. Every other request returns -EINVAL and leaves the window as it was. |
| PruXeno.Ioctl | pru/pru_xeno.c:130-133 | Always -EPERM. |
| PruXeno.Mmap | pru/pru_xeno.c:135-137 | Always -EPERM. |
| PruXeno.Init | pru/pru_xeno.c:157-194 | pru_init as written. A failed claim returns -ENOMEM, having unwound newest first. A successful registration returns 0 holding all four with device_data set. A failed registration returns its error with device_data still set and IRAM, CFG and CLK released, but DRAM still reserved. |
| PruXeno.InitLeaksDram | pru/pru_xeno.c:179-190 | Replaying the registration-failure path from holdings without the four ranges leaves DRAM reserved. |
| PruXeno.InitReleasingAll | pru/pru_xeno.c:157-194 | Corrected pru_init: returns 0 iff all four are granted and registration succeeds. Every failure leaves the reservations exactly as before, logs the full newest-first unwind and never sets device_data, clearing it when registration fails. |
| PruXeno.ReleaseNewestFirst | pru/pru_xeno.c:185-190 | Releases DRAM, IRAM, CFG, CLK in that order. |
| PruXeno.Exit | pru/pru_xeno.c:196-209 | If device_data is set, releases the four ranges in acquisition order and clears it. Otherwise nothing changes. |
| Pru.AllocatePru | pru/pru.c:17-35 | Returns a pointer iff both the reservation and the mapping succeed. A failed mapping releases the reservation again. A refused reservation changes nothing. |
| Pru.DeallocatePru | pru/pru.c:37-41 | Null: nothing happens. Otherwise it unmaps and then releases the whole range. |
| Pru.LoadUnloadRestores | pru/pru.c:17-41 | Allocating and then deallocating restores the holdings, and so does the mapping-failure path on its own. |
| Pru.PruModule.Init | pru/pru.c:44-54 | Returns 0 iff allocation succeeds, keeping the pointer. Otherwise returns -EIO with a null pointer and nothing held. |
| Pru.PruModule.Exit | pru/pru.c:58-63 | Deallocates whatever the pointer holds and nulls it. |
| XenoLed.Open | xenomai/led/led.c:35-78 | Returns 0 iff both reservations and both mappings succeed. On success the context is live and OE is written 0. For each failing step the log holds exactly the undo of the earlier steps, with -EACCES, nothing held and registers untouched. Fields that a failing step never reached keep their old values. |
| XenoLed.Close | xenomai/led/led.c:80-106 | Unmaps the non-null pointers and releases the held regions, in that order, and nulls every field. On an already-closed context nothing changes. |
| XenoLed.OpenFailuresRestore | xenomai/led/led.c:43-73 | Each of the three failure paths of led_open gives back exactly what it took. |
| XenoLed.OpenCloseRestores | xenomai/led/led.c:35-106 | led_close after a successful led_open restores the holdings. |
| XenoLed.Ramp | xenomai/led/led.c:114-116 | The bytes of the fill loop: byte i is i truncated to a char. |
| XenoLed.Filled | xenomai/led/led.c:114-116 | Memory after the fill loop ran for size bytes: the first size bytes are the ramp, every later byte is kept. |
| XenoLed.ReadStaysInBufferIff | xenomai/led/led.c:110-116 | The fill loop leaves every byte past the 100-byte kernel_buf as it was iff size is at most 100. A larger read stores 100 at the first byte past the buffer, so that byte changes unless it already held 100. |
| XenoLed.Read | xenomai/led/led.c:108-123 | led_read as written, over kernel_buf followed by the memory after it: the memory becomes Filled of its old contents for any size. The ghost trace of stores is 0 to size-1 and reaches past the buffer iff size exceeds 100. A failed copy gives -EIO. Otherwise the caller receives the ramp of min(100, size) bytes and size is returned, which is more than the bytes handed over when size exceeds 100. |
| XenoLed.ReadBounded | xenomai/led/led.c:108-123 | Corrected led_read: fills min(100, size) bytes, and the count it returns equals the bytes handed over. |
| XenoLed.InvertedCopyCheck | xenomai/led/led.c:135-139 | For a 4-byte write, led_write stores the word exactly when the intended check would refuse it. A successful copy stores nothing. |
| XenoLed.Write | xenomai/led/led.c:125-142 | led_write as written: a size other than 4 gives -EPERM. A successful copy returns 0 and writes nothing. A failed copy writes the word to data-out and returns 4. |
| XenoLed.WriteChecked | xenomai/led/led.c:125-142 | Corrected led_write: a failed copy returns its error and writes nothing. A successful 4-byte copy writes the word and returns 4. |
| XenoLed.ReserveRegisters | xenomai/led/led.c:38-48 | Succeeds iff both ranges are granted, holding both and logging both reservations. A refused data-out reservation changes no reservation and no log entry, and nulls the data-out handle. A refused OE reservation releases data-out again and clears its handle. |
| XenoLed.MapRegisters | xenomai/led/led.c:50-77 | With both ranges reserved: returns 0 iff both mappings succeed, writing 0 to OE. Either failure returns -EACCES with both reservations released, the mappings as before, the registers untouched and the exact events of that failure path. |
| XenoLed.MapDataOut | xenomai/led/led.c:50-60 | Succeeds iff data-out can be mapped, adding that mapping. Otherwise both reservations are released in data-out, OE order and both handles are cleared. |
| XenoLed.MapOe | xenomai/led/led.c:62-77 | With data-out mapped: succeeds iff OE can be mapped, adding that mapping and writing 0 to OE. Otherwise both reservations are released, data-out is unmapped, both handles and both pointers are cleared and -EACCES is returned. |
| XenoLed.ReleaseIfHeld | xenomai/led/led.c:95-103 | `if (region) release_mem_region(...)`: releases exactly when the handle is set. |
| XenoLed.Ioctl | xenomai/led/led.c:144-147 | Returns EPERM, positive. |
| Led.Mirror | led/led.c:59-90 | The events of a fall-through ladder: each acquisition, then its undo, newest first. |
| Led.MirrorRestores | led/led.c:83-90 | Any ladder of distinct acquisitions that starts from holdings that do not already reserve them, once unwound by the fall-through labels, restores the holdings. |
| Led.InnerPrefixes | led/led.c:52-88 | The events between reserving and releasing data-out, for each number of further steps that succeed. |
| Led.Init | led/led.c:43-94 | Returns 0 iff all four acquisitions succeed. After success, OE is 0 and data-out is all ones. Every path leaves reservations and mappings as they were and logs the ladder's mirror up to the first failure. |
| Led.ReserveOeAndRun | led/led.c:52-88 | The part between the data-out reservation and its release: the OE reservation, the mappings, the writes and the unwinding. |
| Led.UseRegisters | led/led.c:64-84 | With OE mapped: returns 0 iff data-out can be mapped. Then OE becomes 0 and data-out all ones, and data-out is unmapped again. Otherwise -EIO with registers and log untouched. The live mappings end as they started. |
| Led.MapAndUse | led/led.c:59-86 | Maps OE and data-out, performs the writes when both mappings succeed, and unmaps what was mapped. |

## Left out

- The kernel primitives are not modelled as code. Which calls to request_mem_region and ioremap fail is given by the fault sets in `Authority`. What rtdm_malloc, rtdm_copy_to_user, rtdm_copy_from_user and rtdm_dev_register return is given as method parameters.
- Ranges are named, not given as addresses and sizes. Any overlap, such as pru/pru.c's whole range against the four PRU-ICSS1 ranges, shows up only as refusals from the fault sets.
- Window sizes come from `PRUSS_PRU_IRAM_SIZE`, which pru/pru_ctrl.h defines with a trailing semicolon. Other size macros and pru_to_ram_size are missing from the header. The RAM windows are arrays of whatever length the caller supplies.
- printk and rtdm_printk are not modelled.
- rtdm_dev_unregister, the driver and device tables, and the module_init and module_exit wiring are not modelled.
- xenomai/led/led.c's led_init and led_exit only register and unregister the device and are not modelled. The commented-out led_thread is not modelled either.
- led/led.c's led_probe is not registered by any driver, so it is not modelled. Neither is its led_exit, which only prints.
- The monotonic clock and the register samples of the wait loop are sequences given as input. Real time, concurrency between file descriptors, and interrupts are not modelled. The wait loop reads those samples and never `Authority.regs[ClkCtrl]`. The hardware that sets the status bits is not modelled: the `Authority` constructor sets that register to 0, and the model only ever writes bits 0-1 of it. So `PruCtrl.GetDeviceState` does not see the status the wait loop saw.
- PruCtrl.WaitForDeviceState: only clock sequences whose last reading lies past the deadline are considered. The loop is then known to stop. A clock that never passes the deadline while the state is never reached is not modelled.
- The values of the ioctl codes PRU_ACCESS_IRAM and PRU_ACCESS_DRAM are not in the source files. They are modelled as 0 and 1, and only their being distinct matters.
- XenoLed.Read: the memory after kernel_buf is modelled as the tail of one byte array, which must reach size bytes. What C does when the loop runs into memory that is not there, or into data the compiler placed after the buffer, is not modelled.
- PruXeno.Close: requires the clock pointer to be mapped. pru_close dereferences pclk unconditionally, and RTDM calls close only after a successful open, so a close without an open is not modelled.
- The C integer widths of size_t and ssize_t are not modelled. Sizes are natural numbers and results are unbounded integers. The same holds for the wait loop: the `nanosecs_abs_t` subtraction at `pru/pru_ctrl.c:129` and the `nanosecs_rel_t` result at `pru/pru_ctrl.c:132` are 64-bit in C and unbounded integers in the model.
- The `Authority` class does not keep its log and its reserved/mapped fields in step as an invariant. Each method's contract states both updates, and the Replay lemmas relate logs to holdings.

## Findings

| source | as written | input that shows it | evidently intended | confidence | as-written member | corrected member |
|---|---|---|---|---|---|---|
| pru/pru_xeno.c:179-190 | A failed rtdm_dev_register falls into `do_free_iram`. That label releases IRAM, CFG and CLK but not DRAM, which was reserved at line 171, and device_data stays set. | All four ranges free and registration returning -EBUSY: DRAM stays reserved after init fails. | Release DRAM too, newest first, and clear device_data. | high (not executed) | PruXeno.InitLeaksDram | PruXeno.InitReleasingAll |
| xenomai/led/led.c:135-139 | `if(!(copy_result = rtdm_copy_from_user(...))) return copy_result;` returns 0 when the copy succeeds. It goes on to write the word only when the copy failed. | size 4, copy returns 0: nothing is written and 0 is returned. | Return the error when the copy fails, and write the word when it succeeds. | high (not executed) | XenoLed.InvertedCopyCheck | XenoLed.WriteChecked |
| xenomai/led/led.c:114-122 | The fill loop runs to `size`, unbounded, over a 100-byte static buffer, and the function returns `size` although at most 100 bytes are copied. | size 101: the loop stores to kernel_buf[100]. | Fill and report min(100, size) bytes. | high (not executed) | XenoLed.Read | XenoLed.ReadBounded |
