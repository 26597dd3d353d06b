# astra-os: VGA text writer and boot frame allocator, in Dafny

This project models two parts of the astra-os kernel and proves properties
about them.

**The VGA text writer** (`VgaBuffer`, from `src/vga_buffer.rs`). A `Writer`
keeps a cursor column, a colour byte and a 25 x 80 grid of screen
characters. Each screen character is an ASCII byte plus a colour byte. A
printable byte goes into the bottom row under the cursor. When the row is
full, the next byte first starts a new line. A newline copies every row up
by one, blanks the bottom row with the writer's colour, and returns the
cursor to column 0. `write_string` passes printable ASCII (`0x20..=0x7e`)
and `\n` through unchanged. Every other byte of the UTF-8 input becomes
`0xfe`, one cell per byte.

The model has two layers:
- Pure functions on a `WriterState` value (screen, cursor, colour) say what
  each operation does to the whole screen: `ClearRowSpec`, `ScrollUp`,
  `NewLineSpec`, `WriteByteSpec` and `WriteStringSpec`.
- The `Writer` class does the same work in place on an `array2` with the
  source's loops. Its methods are proved equal to those functions.

The source's in-crate tests are lemmas about the pure functions.

**The boot-memory-map frame allocator** (`Memory`, from `src/memory.rs`).
`usable_frames` is a chain of iterators. The model writes it as one pure
function per stage:
- `UsableRegions` is the filter that keeps usable regions.
- `StepBy` and `FrameAddresses` cover the map to address ranges and the
  `flat_map` over `step_by(4096)`.
- `ToFrames` applies `containing_address`, which rounds an address down to
  a multiple of 4096.

`BootInfoFrameAllocator` is a class with a `next` counter. `AllocateFrame`
returns the `next`-th usable frame, or `None` once there are no more, and
adds one to `next` either way. A ghost `handedOut` sequence records the
frames given out so far. Over a well-formed memory map, no frame is given
out twice. A well-formed map has usable regions that start on page
boundaries, come in increasing order and do not overlap.
`EmptyFrameAllocator` has no frames and always returns `None`.

Bytes are `bv8`, so `ColorCode::new` is modelled exactly as
`background << 4 | foreground`. Addresses and counters are unbounded `nat`.

## Model

| member | source | states |
|---|---|---|
| `VgaBuffer.Color.Value` | src/vga_buffer.rs:23-40 | every palette colour has a 4-bit value, below 16 |
| `VgaBuffer.NewColorCode` | src/vga_buffer.rs:47-50 | the foreground can be read back from the low nibble and the background from the high nibble; the byte's value is 16·background + foreground |
| `VgaBuffer.IsPrintable` | src/vga_buffer.rs:110-111 | the printable range `0x20..=0x7e` contains neither the newline nor the 0xfe marker |
| `VgaBuffer.Sanitize` | src/vga_buffer.rs:107-116 | printable ASCII is kept as it is; every other byte except the newline becomes 0xfe; the output is a newline exactly when the input is |
| `VgaBuffer.ClearRowSpec` | src/vga_buffer.rs:131-139 | the result is still a 25x80 screen; every cell of the cleared row is a blank in the given colour; every other row is unchanged |
| `VgaBuffer.ScrollUp` | src/vga_buffer.rs:120-125 | after the copy loop, row r−1 holds the old row r for r in 1..25, and the last row still holds its old contents |
| `VgaBuffer.NewLineSpec` | src/vga_buffer.rs:119-128 | row r−1 becomes old row r, the bottom row is all blanks in the writer's colour, the cursor goes to 0, and the colour is kept |
| `VgaBuffer.WriteByteSpec` | src/vga_buffer.rs:85-104 | the screen keeps its shape and colour; the cursor never passes column 80; a byte that is not a newline ends up in the bottom row just left of the new cursor |
| `VgaBuffer.WriteStringSpec` | src/vga_buffer.rs:107-116 | the screen keeps its shape and colour; if the cursor starts at column 80 or less, it ends there too (the invariant `column_pos <= BUFFER_WIDTH`) |
| `VgaBuffer.WriteByteAtCursor` | src/vga_buffer.rs:93-101 | a byte that is not a newline, written with the cursor before column 80, is stored as (byte, colour) at the cursor in the bottom row; the cursor moves one column right; no other cell changes |
| `VgaBuffer.WriteByteWraps` | src/vga_buffer.rs:89-91 | with the cursor at column 80 or beyond, a byte first scrolls everything up one row; it then sits at column 0 of a freshly blanked bottom row, and the cursor is at 1 |
| `VgaBuffer.WriteStringAppend` | src/vga_buffer.rs:107-116 | writing a then b is the same as writing a + b |
| `VgaBuffer.WriteRun` | src/vga_buffer.rs:107-116 | a newline-free run of bytes that fits in the rest of the bottom row puts one sanitized byte per cell, starting at the cursor; the rest of the bottom row and all other rows are unchanged; the cursor moves forward by the run's length |
| `VgaBuffer.WriteLine` | src/vga_buffer.rs:107-128 | such a run followed by a newline ends up one row above the bottom, at the same columns; the bottom row becomes blank and the cursor returns to 0 |
| `VgaBuffer.PrintlnOutput` | src/vga_buffer.rs:185-193 | test `test_println_output`: start at column 0 and print a printable string of at most 80 bytes, then a newline; byte i of the string is then in row 23, column i |
| `VgaBuffer.FullRowThenWrap` | src/vga_buffer.rs:196-207 | start at column 0 and write 80 copies of a printable x, then a printable y; row 23 is then all x, y is at row 24 column 0, and the cursor is at 1 |
| `VgaBuffer.PrintLineWrap` | src/vga_buffer.rs:196-207 | test `test_print_line_wrap`: after 80 'X' and then 'Y', row 23 is all 'X' and 'Y' is at row 24 column 0 |
| `VgaBuffer.NonPrintableLine` | src/vga_buffer.rs:107-116 | start at column 0 and write at most 80 bytes, none printable and none a newline, then a newline; row 23 then shows 0xfe in each of those columns, one cell per byte |
| `VgaBuffer.NonPrintableChar` | src/vga_buffer.rs:212-221 | test `test_non_printable_char`: the ten UTF-8 bytes of the literal in the source file, then a newline, show as ten 0xfe cells in row 23, so the two cells the test checks are 0xfe |
| `VgaBuffer.NonPrintableHeart` | src/vga_buffer.rs:212-221 | the same for the four UTF-8 bytes of U+1F496: four 0xfe cells in row 23 |
| `VgaBuffer.Writer.constructor` | src/vga_buffer.rs:11-16 | a new writer has its cursor at column 0 and the colour byte built from the given foreground and background, over the given 25x80 buffer |
| `VgaBuffer.Writer.ClearRow` | src/vga_buffer.rs:131-139 | the in-place loop leaves the buffer equal to `ClearRowSpec` of the old screen; the cursor does not change |
| `VgaBuffer.Writer.NewLine` | src/vga_buffer.rs:119-128 | the nested copy loops followed by `ClearRow(24)` leave the writer in the state `NewLineSpec` gives for the old state |
| `VgaBuffer.Writer.WriteByte` | src/vga_buffer.rs:85-104 | every buffer write stays in bounds; the new state is `WriteByteSpec` of the old one; `column_pos <= 80` is kept |
| `VgaBuffer.Writer.WriteString` | src/vga_buffer.rs:107-116 | the byte loop leaves the writer in the state `WriteStringSpec` gives for the old state and the input |
| `VgaBuffer.Writer.WriteStr` | src/vga_buffer.rs:143-147 | always returns `Ok(())`, after writing the string as `write_string` does |
| `Memory.ContainingAddress` | src/memory.rs:62-64 | the frame is 4096-aligned and contains the address: start ≤ addr < start + 4096 |
| `Memory.UsableRegions` | src/memory.rs:46-49 | the filter keeps only usable regions and never makes the list longer |
| `Memory.UsableRegionsMembers` | src/memory.rs:46-49 | a region survives the filter exactly when it is in the map and marked usable |
| `Memory.UsableRegionsAppend` | src/memory.rs:46-49 | the filter keeps map order: filtering a + b gives the filtered a followed by the filtered b |
| `Memory.StepBy` | src/memory.rs:57-59 | `start..end` stepped by 4096 has ⌈(end−start)/4096⌉ elements; element k is start + 4096·k, and every element is below end |
| `Memory.StepByMembers` | src/memory.rs:57-59 | an address is produced by the step exactly when start ≤ a < end and a − start is a multiple of 4096 |
| `Memory.FrameAddresses` | src/memory.rs:51-59 | the expanded sequence has as many addresses as the regions' step counts add up to: each region's length rounded up to whole pages |
| `Memory.FrameAddressesInRegions` | src/memory.rs:51-59 | every candidate address lies in [start, end) of one of the regions it was expanded from |
| `Memory.FrameAddressesAppend` | src/memory.rs:51-59 | expanding the regions keeps their order |
| `Memory.ToFrames` | src/memory.rs:61-64 | one frame per address; each frame is aligned and contains its address |
| `Memory.UsableFrames` | src/memory.rs:44-65 | the frames number as many as the usable regions' step counts add up to, and every frame is aligned |
| `Memory.UsableFramesAppend` | src/memory.rs:44-65 | usable frames follow memory-map order: the frames of a + b are the frames of a followed by the frames of b |
| `Memory.NonUsableRegionIgnored` | src/memory.rs:46-49 | adding a region that is not usable, anywhere in the map, does not change the frames |
| `Memory.UsableRegionFrames` | src/memory.rs:52-64 | one usable region yields ⌈(end−start)/4096⌉ frames; frame k is the frame containing start + 4096·k, and that address is below end |
| `Memory.UsableFramesComeFromUsableRegions` | src/memory.rs:44-65 | every frame produced is aligned and overlaps a region the map marks usable |
| `Memory.UsableFramesIncreasing` | src/memory.rs:44-65 | over a well-formed map (usable regions page-aligned, increasing and non-overlapping), the frame addresses strictly increase, so no frame appears twice |
| `Memory.BootInfoFrameAllocator.Init` | src/memory.rs:37-42 | the allocator holds the given map, `next` is 0 and no frame has been handed out |
| `Memory.BootInfoFrameAllocator.AllocateFrame` | src/memory.rs:69-73 | returns `usable_frames()[next]` when next is in range and `None` otherwise; `next` goes up by exactly one either way; the memory map does not change; over a well-formed map the frame returned has not been returned before |
| `Memory.EmptyFrameAllocator.AllocateFrame` | src/memory.rs:80-84 | always returns `None` |

The two "no panic" tests (src/vga_buffer.rs:171-182) have no lemma of their
own. Their content is that `Writer.WriteByte`, `Writer.WriteString` and
`Writer.NewLine` are proved to index the buffer only in bounds from any
valid state, however many lines are written.

The literal in `test_non_printable_char` (src/vga_buffer.rs:214) is stored in
the file as ten UTF-8 bytes, for U+00F0 U+0178 U+2019 U+2013. Those are the
four UTF-8 bytes of U+1F496 read as Windows-1252 and encoded again.
`NonPrintableChar` is stated for the ten bytes the file holds.
`NonPrintableHeart` covers the four-byte character. Both follow from
`NonPrintableLine`.

`PrintlnOutput`, `PrintLineWrap` and `NonPrintableChar` start from column 0.
In the tests this holds because each earlier test ends its output with a
newline. `println!` and `print!` reach the writer through one or more
`write_str` calls, and `WriteStringAppend` shows that a sequence of calls
gives the same result as one call on the concatenated input.

## Left out

- The global `WRITER` (`lazy_static` and a `spin::Mutex`), the `print!`/`println!` macros and `_print` (src/vga_buffer.rs:10-17, 151-168): these are locking and `core::fmt` formatting machinery. The constructor takes the colour as a parameter in place of the fixed green-on-black.
- The raw pointer to 0xb8000 and the `Volatile` wrappers: this memory-mapped I/O is modelled as an ordinary `array2` that only the writer owns.
- Strings enter the model as their UTF-8 byte sequence, which is what `s.bytes()` iterates over. Decoding characters is not modelled.
- `Writer.ClearRow` requires row < 25. In Rust an out-of-range row is an index panic, and the only caller passes row 24.
- Integer widths: `column_pos`, `next` and physical addresses are unbounded `nat`. `usize` overflow of `next` after 2^64 calls is not modelled. Neither is the panic of `PhysAddr::new` on addresses that use bits 52 to 63, which lives in the `x86_64` crate.
- Memory region kinds: the bootloader crate's `MemoryRegionType` is not part of this model. Only `Usable`, and a tag for everything else, is distinguished. Region bounds are arbitrary addresses, not whole frame numbers.
- Memory map validity (src/memory.rs:35-36): the caller's promise that usable frames are unused cannot be checked here. Without page-aligned, non-overlapping usable regions, the same frame can be produced twice. For example, usable regions [0, 5000) and [5000, 9000) both yield the frame at 4096. So `UsableFramesIncreasing` and the matching clause of `AllocateFrame` assume a well-formed map.
- The paging functions of src/memory.rs (`init`, `active_level_4_table`, `create_example_mapping`): they read CR3, dereference raw physical-offset pointers and call `OffsetPageTable::map_to` from the `x86_64` crate.
- src/interrupts.rs (the IDT, the PIC remapping, the handlers) and src/gdt.rs (the GDT, the TSS and the double-fault stack): both consist of calls into the `x86_64` and `pic8259_simple` crates, which are not part of this model. Their only local logic is a few constants.
- src/lib.rs, src/serial.rs, src/main.rs and tests/stack_overflow.rs: boot, port I/O, the UART and the test harness.
