# A model of the node display firmware, and what it keeps

The firmware glues a few self-contained algorithms and protocols to an ESP32-C3: an OLED driver that
sends only the display pages that changed, an encoder for chains of addressable LEDs, the text
grammars its configuration is kept in, a chunked loader for packages and firmware images, a
registration handshake, PWM outputs and a wait clock for a small virtual machine. This project models
those parts in Dafny and proves what they are relied on for.

`dafny verify dfyconfig.toml` checks everything.

## How it is laid out

| files | what they model |
|---|---|
| `OledProtocol`, `OledProtocolProofs`, `OledHistory`, `OledProgress` | the segment flush: display task, I2C worker thread and the other tasks, as steps that interleave freely; what every run keeps, how inits and attempts went, and that every frame ends and every redraw is shown |
| `OledConfig`, `OledController`, `OledDisplay`, `Screen` | the OLED's configuration and byte sequences, the controller that obeys them, and the path from a framebuffer bit to a panel pixel |
| `IledChain`, `IledWire`, `IledDecode`, `Iled`, `IledFrame`, `IledSample` | LED chain layout, wire encoding, a receiver for it, frame rendering, the frame as one stream, sampling the framebuffer |
| `IledFields`, `IledGrammar`, `IledChips`, `IledMeaning`, `Nodem`, `Persistence` | the configuration grammars and their printers, the table of known chips, what a line means down to the LEDs, and what is restored after a restart |
| `LoaderModel`, `LoaderProofs`, `Loader` | "pkg" and "ota" uploads over NOR flash and the OTA service |
| `RegistrationModel`, `RegistrationProofs`, `Registration` | "#reg", "#name", "#host", "#factory", credentials, the websocket client's lap |
| `PwmModel`, `PwmProofs`, `Pwm` | the PWM channel table and duty arithmetic |
| `VmClockModel`, `VmClockProofs`, `VmClock` | the wait clock and the frame step that holds the VM |
| `Prelude`, `Arith`, `Bits`, `Text` | shared types, arithmetic, bits, and string operations |

Objects the firmware changes in place are classes (`Iled.Framebuffer`, `Loader.CommandListener`,
`Registration.Controller`, `Pwm.Pwm`, `VmClock.VmClock`, `Screen.Global`, `OledDisplay.Preparation`).
Their methods are proved equal to functions on values, `...Model`, and the properties over whole runs,
`...Proofs`, are proved of those. The flush protocol interleaves three parties, one of them
preemptive, so it is a transition system rather than a class: a run is any sequence of enabled steps.

## What the environment may do

- I2C writes succeed or fail arbitrarily, at any time. A page write that succeeds installs the page; one
  that fails leaves that page arbitrary and disturbs no other; an init leaves all of the display RAM
  arbitrary. Other tasks may redraw whenever the display task has yielded, and only then.
- Pages are compared by an arbitrary hash function. Results are stated as equal hashes, and as equal
  data unless the two pages collide; no assumption about collisions is made.
- Each flash, partition and OTA call of an upload succeeds or fails arbitrarily, and an erase of a part
  of a sector always fails; a failed one leaves arbitrary content. Nothing else writes the partition during an upload.
- The non-volatile store does not fail, and no value holds a NUL. The registration server answers
  anything, or nothing. Commands, attempts, client polls and restarts come in any order.
- The LEDC timer takes or refuses any resolution and reaches any frequency. A program of the virtual
  machine makes any calls at any times; the stack holds the operands of each call.
- Text is a sequence of Unicode characters; where the firmware counts bytes of arbitrary text (names,
  hosts, codes), so does the model (`Text.Utf8Len`).

## Where the firmware and its comments differ

The model follows the code in each case.

- The comment above `parse_color` (src/iled.rs:186-198) says trailing zero digits can always be trimmed.
  They can exactly when the trimmed text ends on a whole channel or in another zero
  (`IledFields.TrimmingZeros`, with "#10" and "#1" as a counterexample).
- The comment above `parse_layout` asks for exactly one letter of each edge; the code takes the default
  for an edge that is not named even when others are (`IledFields.LayoutMeaning`).
- "#host" accepts 128 bytes, but only hosts of up to 127 are ever used: the read buffer also holds the
  terminating NUL (`RegistrationProofs.HostIsUsed`). A host that is refused still costs the device its
  credentials (`RegistrationProofs.RefusedHostForgetsCredentials`).
- The comment above `run_display` says that after a failed flush and the reinit the next frame tries
  again. The dirty flag is clear by then, so there is a next frame only once something is redrawn again
  (`OledHistory.NextBetweenFrames`, `OledProgress.FrameEnds`).
- The comment above `read_iled_config` says the next boot reads back the same thing. Two accepted
  commands are not restored: a text of 80 bytes is stored, but does not fit the buffer it is read into,
  and the default replaces it; a bare "#iled" switches the chain off and stores nothing, and the restart
  switches it on again with the default. Every other one is restored (`Persistence.IledSurvivesRestart`,
  with `Persistence.IledOf80Bytes` and `Persistence.BareIledComesBack` as counterexamples).

## Model

| member | source | states |
|---|---|---|
| OledProtocolProofs.CacheCoherence | src/oled.rs:400-480 | in every reachable state, a page whose hash is kept has its write outstanding with a buffer of that hash, or the panel holds data that hashes to it |
| OledProtocolProofs.BufferConservation | src/oled.rs:298-359 | exactly two buffers exist; the second is in one of spare, queue, worker, completion; at most one write is outstanding and no `expect` fires |
| OledProtocolProofs.NoLostWakeup | src/oled.rs:328-359 | a task parked in `complete` whose write is done has been woken, and one whose write is not done has its waker registered |
| OledProtocolProofs.WorkerProgress | src/oled.rs:325-334 | while a task is parked, every step of the worker thread is enabled and brings its wakeup closer |
| OledProtocolProofs.AwaitsYield | src/oled.rs:325-359 | exactly when the display task can run; an await that finds its write unfinished registers its waker and yields at once |
| OledProtocolProofs.NeverStuck | src/oled.rs:676-753 | until it ends, the display task or the worker thread can always take a step |
| OledHistory.LeavesWorkerIdle | src/oled.rs:746-753 | a display task that ends leaves the worker idle, without a stale completion or waker, and the off sequence is the last thing written exactly if the first init succeeded |
| OledHistory.FirstInitDecides | src/oled.rs:679-691 | only the first init decides whether the display is used, for the rest of the run: a failed reinit does not |
| OledHistory.NextBetweenFrames | src/oled.rs:695-711 | exactly when `run_display` switches the panel off, ends, starts a frame or waits |
| OledHistory.ReinitAfterFailures | src/oled.rs:714-735 | a failed attempt is followed by another until three of the frame have failed, then by a reinit |
| OledProtocolProofs.FlushRefinesFullRedraw | src/oled.rs:452-480 | a flush that returns Ok leaves each page as if the whole frame had just been sent, up to a hash collision; it is the current view if nothing was redrawn |
| OledProtocolProofs.WrittenAtMostOnce | src/oled.rs:452-480 | without a redraw, the attempts of one frame write no page successfully twice |
| OledProtocolProofs.FlushAgainSendsNothing | src/oled.rs:456-480 | after an Ok flush, drawing and flushing the same frame again submits no buffer and leaves the panel as it is |
| OledProtocolProofs.SkipsToEnd | src/oled.rs:459-464 | a flush whose pages were all sent skips each of them and returns Ok without an await |
| OledProtocolProofs.NoLostRedraw | src/oled.rs:695-719 | between frames, with the dirty flag clear and the last flush Ok, the panel holds the current view, up to a collision |
| OledProtocolProofs.AttemptsAreBounded | src/oled.rs:679-742 | only a display whose first init succeeded is flushed or reinitialized; a frame has at most three attempts, and the third failure reinitializes |
| OledProtocolProofs.FirstFrameGoesOut | src/oled.rs:691-711 | a first init that succeeded is followed by a frame, dirty or not |
| OledProgress.OwnStepCloser | src/oled.rs:676-753 | every step of the display task or the worker thread ends the frame, init or switch-off under way, or lowers one rank |
| OledProgress.FrameEnds | src/oled.rs:452-480 | whatever fails or is redrawn, every run with a bounded number of their steps ends the frame, flushed or reinitialized with no page taken for known; a switch-off ends `run_display` |
| OledProgress.EndsAlone | src/oled.rs:705-753 | and such a run always exists: left to themselves the two get there within the bound, whichever writes fail |
| OledProgress.RedrawIsShown | src/oled.rs:695-743 | from any state between frames of a display that came up and is wanted, a redraw is on the panel within the bound if the bus works and nothing else is redrawn, whatever failed before, up to a collision |
| OledProtocolProofs.StepKeeps | src/oled.rs:676-753 | every enabled step keeps the invariant |
| OledProtocolProofs.ReachableInv | src/oled.rs:676-753 | the invariant holds in every reachable state |
| OledDisplay.DisplayIsWellFormed | src/oled.rs:107-133 | for every configuration with columns to show, the controller takes the init, off and page sequences as what the driver means |
| OledController.InitShowsRam | src/oled.rs:183-278 | a controller of either chip that obeys the init sequence is on and powered, drives exactly the panel's rows from the RAM's first one on, in the addressing mode pages are written in |
| OledController.OffSwitchesOff | src/oled.rs:211-213 | one that obeys the off sequence is off, and nothing else about it changes |
| OledDisplay.PanelShowsView | src/oled.rs:425-439 | end to end over all runs: with the flag clear and the last flush Ok, each panel bit is the current view's pixel, up to a collision |
| OledDisplay.Preparation.PackColumn | src/oled.rs:433-437 | the packed byte is the column's eight pixels, topmost lowest |
| OledDisplay.Preparation.Prepare | src/oled.rs:425-439 | `prep` becomes the page's header and the data of one sample of the view |
| OledConfig.ParsedIsValid | src/oled.rs:520-549 | an accepted value is one of the chip's sizes, inside its RAM, on a page boundary, with a right-angle rotation |
| OledConfig.ParseMeaning | src/oled.rs:513-549 | which values mean which configuration: fields that spell a size of the chip, an offset in its RAM that starts a page, and quarter turns, none if left out |
| OledConfig.DefaultText | src/oled.rs:551-559 | the default is written as documented |
| OledConfig.DisabledIffNoChip | src/oled.rs:520-524 | a value disables the display exactly when its first field names no chip |
| OledConfig.RoundTrip | src/oled.rs:520-559 | parsing the printed form of any accepted configuration gives it back |
| OledConfig.PrintIsCanonical | src/oled.rs:553-559 | printing what was parsed is idempotent |
| OledConfig.PrintFits | src/oled.rs:20 | the printed form fits the stored value's limit |
| OledConfig.DrawAreaFits | src/oled.rs:571-583 | the draw area lies in the RAM and on the panel, is cut at the RAM's edge only, and has no columns exactly when it starts past it |
| OledConfig.DrawAreaStart | src/oled.rs:571-583 | it starts at the glass plus the configured offset: no addition saturates |
| OledConfig.GlassIsCentred | src/oled.rs:175-262 | every panel's glass is in the middle of the RAM's columns, but for the 96x16 one |
| OledConfig.HeaderAddressesPage | src/oled.rs:217-223 | a header and its data are stored by the controller in exactly that page, from the area's first column on |
| OledConfig.SegmentFits | src/oled.rs:32-39 | a header and its page of data fit the buffers |
| Screen.InBounds | src/global.rs:440-446 | every framebuffer pixel lies in the buffer |
| Screen.PixelIsStreamBit | src/global.rs:435-446 | the framebuffer is one bit stream, row by row, most significant bit first |
| Screen.OutsideIsOff | src/global.rs:440-446 | outside the framebuffer everything is off |
| Screen.Global.ResizeDisplay | src/global.rs:422-433 | the buffer always has the configured size; another width or height gives a blank one and sets every dirty flag, the same ones keep it |
| Screen.Global.DisplayPixel | src/global.rs:440-446 | reads the packed bit, most significant first, and off outside |
| Screen.AxisPreimage | src/driver.rs:112-116 | along an axis, each framebuffer coordinate shows at exactly one block of `scale` driver pixels |
| Screen.ShownWhole | src/driver.rs:112-116 | an unshifted framebuffer that fits is shown whole, its margins differing by at most one |
| Screen.StartsAtEdge | src/driver.rs:112-116 | one as large as the output or larger starts at the edge |
| Screen.MappedView | src/driver.rs:97-121 | a driver with an entry shows a pixel lit exactly where it lies in the block of a framebuffer pixel that is on; everything around is dark |
| Screen.UnmappedView | src/driver.rs:109-128 | a driver without one shows every second pixel of its edge, by phase |
| Screen.DefaultsFit | src/nodem.rs:54-63 | out of the box the default display shows the default framebuffer pixel for pixel |
| Screen.FallbackBlinks | src/driver.rs:123-128 | without a mapping, each edge pixel is lit in exactly one of the two phases, and no other ever |
| Screen.RotationBijection | src/oled.rs:563-601 | rotation is a bijection from the panel onto the rotated view |
| Screen.TurnsClockwise | src/oled.rs:585-596 | the picture turns clockwise: its first row starts in the next corner and runs along the next edge |
| Screen.PageDataBit | src/oled.rs:430-438 | each bit of a page's data is the panel pixel in that column and row |
| Screen.PageDataPixel | src/oled.rs:585-601 | that bit is the framebuffer bit at the composed rotation, centring, scaling and shift |
| IledChain.IndexThenPixel | src/iled.rs:296-309 | `led_index` is injective into the chain: the pixel can be recovered from its index |
| IledChain.PixelThenIndex | src/iled.rs:296-309 | `led_index` is onto: every index is the index of its pixel |
| IledChain.LineNeighbours | src/iled.rs:286-309 | consecutive LEDs of a line are grid neighbours |
| IledChain.ConsecutiveNeighbours | src/iled.rs:286-309 | across line ends they are neighbours exactly when the wiring is serpentine or lines are one LED long |
| IledChain.ChainStart | src/iled.rs:226-278 | the chain starts at the corner of its two edges |
| IledChain.ChainDirection | src/iled.rs:246-278 | and leaves it along its axis |
| IledWire.RenderBits | src/iled.rs:788-798 | the innermost loop emits a symbol's bits, most significant first, and writes past no packet |
| IledWire.RenderSymbol | src/iled.rs:787-798 | a data bit is emitted as its symbol |
| IledWire.RenderValue | src/iled.rs:786-798 | the middle loop emits a channel's bits, most significant first, each as its symbol |
| IledWire.RenderChannel | src/iled.rs:784-799 | a channel is emitted as its top bits |
| IledWire.RenderLed | src/iled.rs:779-800 | the first `len` bytes become the packet of the colour, each of them stored exactly once and in order, and no other byte is written |
| Bits.ShiftRightBits | src/iled.rs:785 | shifting a channel right keeps exactly its top bits |
| IledDecode.UnpackPack | src/iled.rs:786-797 | unpacking packed bits gives them back |
| IledDecode.PackUnpack | src/iled.rs:786-797 | packing unpacked bytes gives them back |
| IledDecode.DecodeEncode | src/iled.rs:784-799 | two different symbols of one length can be told apart in any stream |
| IledDecode.SymbolsDiffer | src/iled.rs:422-424 | the symbols differ exactly when the patterns do |
| IledDecode.PacketDecodes | src/iled.rs:779-800 | a decoder recovers every channel's truncated value from a packet |
| IledDecode.PacketCarries | src/iled.rs:74-82 | each value is the top bits of the component its channel is named for |
| IledDecode.EqualPatternsCollapse | src/iled.rs:422-424 | with equal patterns all colours encode to the same packet: that condition is needed |
| IledDecode.RunsKeepTheirLength | src/iled.rs:320-352 | in a stream of pulse symbols each high run is as long as its own symbol's |
| IledDecode.OneRisingEdgePerBit | src/iled.rs:320-352 | such a stream rises exactly at symbol starts, and not in the tail |
| IledDecode.DefaultSymbolsArePulses | src/iled.rs:362-376 | the default symbols are such pulses |
| Iled.FrameIsWholeBuffers | src/iled.rs:721-768 | a frame is a whole number of DMA buffers within the hardware's limits |
| Iled.DataFits | src/iled.rs:694-721 | the LED data of every accepted configuration fits, with room for the longest reset |
| Iled.TailCoversReset | src/iled.rs:378-390 | the zero tail lasts at least `reset_ns`, at the nominal and at the truncated rate |
| Iled.RateMeaning | src/iled.rs:378-390 | the bit and sample rates are the nearest whole ones below the exact rate |
| Iled.Framebuffer.Set | src/iled.rs:820-822 | sets exactly the pixel's place, in bounds |
| Iled.Framebuffer.Render | src/iled.rs:840-859 | the frame becomes one packet per LED in chain order, followed only by zeros |
| IledFrame.FrameShowsPixel | src/iled.rs:840-859 | the slot `led_index` gives a pixel decodes to that pixel's colour, as far as the pattern carries it |
| IledFrame.FrameIsOneStream | src/iled.rs:840-859 | a frame is one stream of symbols over all LEDs, low after it |
| IledFrame.FrameRisesOncePerBit | src/iled.rs:320-352 | a whole frame rises exactly once per data bit, across LEDs and into the tail |
| IledFrame.FrameRunsKeepTheirLength | src/iled.rs:320-352 | in a whole frame the slot of each data bit holds one high run from its start, as long as that bit's own symbol's, and the tail's slots hold none |
| IledSample.SampleFromDom | src/iled.rs:867-874 | every pixel of the chain becomes the view's |
| IledSample.LitMeaning | src/iled.rs:867-874 | the chain's pixel is lit exactly where it lies in the block of a framebuffer pixel that is on, by the chain's own entry, or in the blinking frame without one |
| IledSample.FrameShowsView | src/iled.rs:840-874 | end to end: the slot of a pixel decodes to the on colour exactly where the chain's view of the framebuffer is lit |
| IledFields.SkipDigits | src/iled.rs:156-159 | finds the end of the digits |
| IledFields.ParsePattern | src/iled.rs:139-178 | the loop computes the pattern grammar: letter and depth pairs, bounds on both |
| IledFields.PatternRoundTrip | src/iled.rs:180-184 | parsing a printed pattern gives it back |
| IledFields.PatternMeaning | src/iled.rs:139-178 | which texts mean which pattern: exactly those that spell it, letter by letter, depths in digits |
| IledFields.ParseLayout | src/iled.rs:508-533 | the loop computes the layout grammar |
| IledFields.LayoutMeaning | src/iled.rs:495-507 | a layout text is accepted exactly when it names no part twice and nothing else; each part is what its letter says, or its default |
| IledFields.LayoutOrderIsFree | src/iled.rs:495-507 | the letters may come in any order |
| IledFields.LayoutRoundTrip | src/iled.rs:535-545 | parsing a printed layout gives it back |
| IledFields.ReadChunks | src/iled.rs:209-212 | the chunk loop computes each channel, the missing ones 0 |
| IledFields.ParseColor | src/iled.rs:199-215 | computes the colour grammar, with its default for an empty field |
| IledFields.ColorRoundTrip | src/iled.rs:217-224 | parsing a printed colour gives it back |
| IledFields.ColorMeaning | src/iled.rs:186-215 | which texts mean which colour: a `#` and at most ten digits, whose pairs are red, green, blue, warm and cold white in this order, 0 where none are given |
| IledFields.TrimmingZeros | src/iled.rs:186-198 | of a colour text that is valid, a trailing zero digit can be dropped without changing the colour exactly when the rest ends on a whole channel or in another zero |
| IledFields.TrimmingCanChangeAColor | src/iled.rs:186-198 | "#10" and "#1" are different colours |
| IledFields.TimingRoundTrip | src/iled.rs:413-447 | parsing a printed timing gives it back, bit patterns included |
| IledFields.TimingMeaning | src/iled.rs:413-447 | which texts mean which timing: the first two are the symbols of a data 1 and a data 0 as they go over the wire |
| IledGrammar.Parse | src/iled.rs:614-665 | `parse` computes the whole grammar: fields, defaults, chip names and the checks that span fields |
| IledGrammar.ParsedIsValid | src/iled.rs:649-662 | every accepted configuration is one the frame is sized for |
| IledGrammar.ProtocolRoundTrip | src/iled.rs:630-646 | a printed protocol is not blank, is no chip's name, and reads back as it is |
| IledGrammar.RoundTrip | src/iled.rs:614-684 | parsing the printed form of any accepted configuration gives it back |
| IledGrammar.PrintIsCanonical | src/iled.rs:667-684 | printing what was parsed is idempotent |
| IledChips.ResolvesToPrint | src/iled.rs:569-583 | a table entry, or the blank field's default, is the very text its chip's timing and pattern are printed as |
| IledChips.EveryChipParses | src/iled.rs:560-583 | every entry of the chip table parses, to its chip's timing and pattern, and the blank field to the default chip's |
| IledChips.EveryChipIsDriven | src/iled.rs:569-577 | every chip's packets are whole bytes, and its two symbols are single pulses of different length |
| IledChips.ChipLine | src/iled.rs:624-662 | with a chip's name or a blank as protocol, a line whose other fields parse is refused only for its chain's length |
| IledChips.DefaultCommand | src/iled.rs:470-493 | the command documented to match the default configuration parses to it |
| IledMeaning.DefaultsSpelledOut | src/iled.rs:614-634 | every line means what the line with every default written out means: fields left out or blank, dimensions that are zero, white space, fields too many |
| IledMeaning.NumberIsARow | src/iled.rs:547-558 | a number of LEDs alone is a row of that many |
| IledMeaning.ProtocolMeaning | src/iled.rs:630-646 | which texts mean which protocol: exactly five parts |
| IledMeaning.LineReachesLed | src/iled.rs:779-859 | from the command to the LEDs: a receiver finds, entry by entry of the wire pattern, the digit pairs of the colour's text that the entries' letters stand for, the on colour's where the pixel is lit |
| Nodem.DeviceRoundTrip | src/driver.rs:52-67 | parsing a printed device entry gives it back |
| Nodem.DeviceMeaning | src/driver.rs:52-67 | which entries mean which device: exactly five fields, scales that are not zero |
| Nodem.AddDevice | src/nodem.rs:88-93 | an entry is refused when malformed, when the table is full, or when its driver has one already |
| Nodem.FillDevices | src/nodem.rs:85-94 | the counter loop fills the table with the accepted entries in order |
| Nodem.Parse | src/nodem.rs:70-97 | `parse` computes the whole grammar |
| Nodem.ParsedIsValid | src/nodem.rs:70-97 | what it accepts is in bounds, each driver at most once, the table filled from its start |
| Nodem.ParsedMeaning | src/nodem.rs:70-97 | which lines mean which configuration: its geometry, and its devices in order, empty entries left out |
| Nodem.DefaultText | src/nodem.rs:54-63 | the default is written as documented |
| Nodem.BufferIsTight | src/nodem.rs:117-121 | every framebuffer bit has its place, and no byte is unused |
| Nodem.RoundTrip | src/nodem.rs:70-106 | parsing the printed form of any accepted configuration gives it back |
| Nodem.PrintIsCanonical | src/nodem.rs:99-106 | printing what was parsed is idempotent |
| Nodem.PrintFits | src/nodem.rs:32-35 | the printed form never exceeds the stored value's limit |
| Persistence.NodemSurvivesRestart | src/nodem.rs:128-156 | every "#nodem" value that parses is accepted as what it says, a blank one as the default, and is in use after a restart; without one the default is |
| Persistence.OledSurvivesRestart | src/oled.rs:604-626 | every "#oled" value that parses is accepted, unless it disables the display in over 48 bytes, and the display is so configured or disabled after a restart; without one it is the default |
| Persistence.PrintedLength | src/iled.rs:673-684 | the exact length of a printed LED configuration |
| Persistence.TextBound | src/command_listener.rs:387-396 | it is at most 82 bytes, and below 80 for patterns below 10 ms |
| Persistence.IledAcceptance | src/command_listener.rs:383-396 | "#iled" accepts a bare command, and exactly the values that parse to a configuration of at most 80 bytes of text |
| Persistence.IledSurvivesRestart | src/iled.rs:888-912 | what an accepted "#iled" put in use is in use after a restart exactly when it was not bare and its text has fewer than 80 bytes; otherwise the default is |
| Persistence.SecondBootIsSteady | src/iled.rs:888-912 | after a restart what is stored is what is in use, default included, and the next one leaves it so |
| Persistence.BareIledComesBack | src/command_listener.rs:383-386 | a bare "#iled" stores nothing and switches the chain off, and after a restart it is on with the default |
| Persistence.UsualIledSurvivesRestart | src/iled.rs:880-887 | with patterns below 10 ms every value that is not blank and parses is accepted, and in use after a restart |
| Persistence.IledOf80Bytes | src/iled.rs:888-896 | a configuration of 80 bytes that is accepted and replaced by the default at the next boot |
| Nodem.FindDriver | src/nodem.rs:113-115 | a driver's mapping is an entry of its own, and is missing only when there is none |
| Nodem.MappingIsEntry | src/nodem.rs:113-115 | a driver's mapping is exactly its entry of the table |
| LoaderModel.FeedConcat | src/command_listener.rs:618-626 | one data call with two parts does what two calls do |
| LoaderModel.FragmentationIndependence | src/command_listener.rs:618-626 | any two ways of splitting the same bytes end in the same state, whatever fails |
| LoaderProofs.HandleSafety | src/command_listener.rs:600-604 | in every run no handle is used unless open, so none is ended or aborted twice or begun beside another; the staging index stays in its buffer |
| LoaderProofs.PkgUpload | src/command_listener.rs:664-743 | a "pkg" upload that ends Ok has put exactly the bytes sent into flash, each erased first and written once; the rest of the fewest whole sectors that hold it is blank, and nothing past them was touched |
| LoaderProofs.BootOnlyAfterWholeImage | src/command_listener.rs:788-811 | the boot slot changes, or a restart is asked for, only by the end of an "ota" upload, with exactly the bytes sent since its start |
| LoaderProofs.EndOta | src/command_listener.rs:788-811 | an "ota" end that is Ok made exactly the bytes sent the boot slot; any other leaves boot slot and restart as they were |
| LoaderProofs.EndResult | src/command_listener.rs:628-637 | what an end reports for each mode, that it leaves no upload behind, and that only a finished "pkg" asks for a reload |
| LoaderProofs.StartAccepts | src/command_listener.rs:664-777 | exactly when a start is accepted: for a package, when the fewest whole sectors that hold it fit and are erased; and the size it reports |
| LoaderProofs.UploadSucceeds | src/command_listener.rs:596-638 | when no foreign call fails, an accepted upload of either kind ends Ok |
| LoaderProofs.FailedUploadStops | src/command_listener.rs:644-658 | once a write has failed, nothing more of the upload reaches flash or the OTA service |
| LoaderProofs.FailedUploadEnds | src/command_listener.rs:628-811 | it then ends without success: flash, update slot and boot slot as they were, no handle left |
| LoaderProofs.FlushOfNothing | src/command_listener.rs:644-651 | an empty staging buffer is handed to nobody |
| LoaderProofs.ProgramNext | src/command_listener.rs:726-734 | writing the next chunk over erased flash stores it, although writes only clear bits |
| LoaderProofs.FlushKeeps | src/command_listener.rs:644-658 | a flush keeps what reached flash or the OTA service equal to what was sent |
| LoaderProofs.StartKeeps | src/command_listener.rs:597-616 | a start releases an abandoned handle first and changes no boot slot |
| LoaderProofs.ReachableInv | src/command_listener.rs:596-812 | the loader's invariant holds in every reachable state |
| Loader.CommandListener.ProcessLoaderStart | src/command_listener.rs:597-616 | computes the start step on the listener's fields |
| Loader.CommandListener.ProcessLoaderData | src/command_listener.rs:618-626 | stages every byte in bounds and flushes whenever the buffer is full |
| Loader.CommandListener.ProcessLoaderEnd | src/command_listener.rs:628-637 | flushes the rest and finishes the mode's upload |
| Loader.CommandListener.LoaderFlush | src/command_listener.rs:644-658 | hands the staged bytes on, unless a write failed before |
| Loader.CommandListener.PkgStartUpload | src/command_listener.rs:664-700 | checks the size and erases the region before anything is written |
| LoaderProofs.RoundUpIsWholeSectors | src/command_listener.rs:685-693 | what is erased is the fewest whole sectors that hold the package |
| Loader.CommandListener.PkgWriteChunk | src/command_listener.rs:726-734 | writes at the running offset |
| Loader.CommandListener.OtaStartUpload | src/command_listener.rs:754-777 | begins a handle for an image that fits |
| Loader.CommandListener.OtaEndUpload | src/command_listener.rs:788-811 | ends or aborts the handle once, and makes only a verified image the boot slot |
| RegistrationProofs.CredentialsMatchHost | src/command_listener.rs:459-468 | over all interleavings, stored credentials were issued by the host read now, an open client's by its own host, and a client without pending reregistration uses what is stored |
| RegistrationProofs.ResponseMeaning | src/websocket.rs:624-639 | which answers issue which credentials: "#id", the id, the secret, anything further |
| RegistrationProofs.IssuedAreUsed | src/websocket.rs:536-565 | a code answered with credentials is spent; the id is stored as the id, the secret as the secret, and the client is opened with exactly those |
| RegistrationProofs.StoredAreUsedAgain | src/websocket.rs:476-499 | without a code, later attempts open their client with the stored pair and ask nobody |
| RegistrationProofs.RequestIsReadable | src/websocket.rs:571-575 | in every run, a server that splits the request finds the stored code, the MAC address and the stored name, at the host in use |
| RegistrationProofs.NoStrayCode | src/websocket.rs:501-522 | a real code always comes with a valid name: the branch that clears a stray code is never taken |
| RegistrationProofs.StrayCodeIsCleared | src/websocket.rs:501-522 | from a store that holds one all the same, the attempt recovers by clearing it |
| RegistrationProofs.StatusIsTrue | src/websocket.rs:152-156 | an open client is reported as registered, and a reported name is the stored one |
| RegistrationProofs.NewCodeIsUsed | src/command_listener.rs:342-357 | an accepted "#reg" closes an open client at the next pass, and the next attempt asks the server |
| RegistrationProofs.FactoryForgets | src/command_listener.rs:296-323 | a reset leaves no key, the default host, and a missing code |
| RegistrationProofs.RenameOnlyRenames | src/command_listener.rs:358-361 | an accepted "#name" changes the stored name and nothing else |
| RegistrationProofs.WordsMeaning | src/command_listener.rs:284-293 | a line's command and first two arguments are its fields, trimmed, or empty |
| RegistrationProofs.OtherLinesAreIgnored | src/command_listener.rs:284-286 | a line without the hash changes nothing |
| RegistrationProofs.RegStores | src/command_listener.rs:342-357 | "#reg" stores its first argument as the code and its second as the name |
| RegistrationProofs.NameStores | src/command_listener.rs:358-361 | "#name" takes its first argument |
| RegistrationProofs.HostStores | src/command_listener.rs:459-468 | "#host" takes its first argument |
| RegistrationProofs.CommandsAccept | src/command_listener.rs:342-361 | exactly which codes, names and hosts are accepted, in bytes; a refused one is not stored |
| RegistrationProofs.FactoryAndOthers | src/command_listener.rs:296-323 | "#factory" is accepted, and other commands leave the keys alone |
| RegistrationProofs.BlankHostIsDefault | src/command_listener.rs:459-468 | "#host" without a host goes back to the default and forgets the credentials |
| RegistrationProofs.ClientIsKept | src/websocket.rs:221-265 | a pass keeps its client exactly if the ping went through and nothing asks for a new registration |
| RegistrationProofs.RequestsAreBounded | src/websocket.rs:571-609 | there are never more registration requests than accepted "#reg" commands |
| RegistrationProofs.AttemptOutcome | src/websocket.rs:466-499 | when an attempt reports a missing code, a rejected one or a failure, exactly |
| RegistrationProofs.AttemptStatus | src/websocket.rs:125-171 | what an attempt reports, exactly |
| RegistrationProofs.RejectedUntilNewCode | src/websocket.rs:67-74 | after a failed registration every attempt reports Rejected and none asks the server, across restarts, until an accepted "#reg" or a "#factory" |
| RegistrationProofs.IssuedIsShort | src/websocket.rs:600-639 | whatever the server issues fits the buffers it is read back into |
| RegistrationProofs.HostIsUsed | src/websocket.rs:435-444 | an accepted host is the one used exactly when it has at most 127 bytes |
| RegistrationProofs.HostOf128Bytes | src/websocket.rs:435-444 | a host of 128 bytes is accepted and the default is used |
| RegistrationProofs.RefusedHostForgetsCredentials | src/command_listener.rs:459-468 | a refused host leaves the host and removes the credentials |
| RegistrationProofs.RegisterKeeps | src/websocket.rs:524-565 | a registration attempt of any outcome keeps the invariant |
| RegistrationProofs.ReachableInv | src/websocket.rs:116-266 | the invariant holds in every state reachable from an empty store |
| Registration.Controller.Command | src/command_listener.rs:284-362 | runs a command line's effect on the store and the pending flags |
| Registration.Controller.RegCommand | src/command_listener.rs:342-357 | stores code and name together, or neither |
| Registration.Controller.HostCommand | src/command_listener.rs:459-468 | stores or clears the host and removes the credentials |
| Registration.Controller.FactoryCommand | src/command_listener.rs:296-323 | removes all five keys |
| Registration.Controller.EnsureDeviceCredentials | src/websocket.rs:466-565 | computes the credential check, one registration request included |
| Registration.Controller.Connect | src/websocket.rs:125-171 | one lap of `websocket_task` up to its client |
| Registration.Controller.PollClient | src/websocket.rs:221-265 | one pass over an open client |
| PwmModel.TruncatingTwice | src/int_pwm.rs:41-47 | keeping a duty in 65536ths and cutting it to the timer's bits is exact at every resolution |
| PwmModel.PulseIsFraction | src/int_pwm.rs:130-132 | a capped pulse is the capped fraction of the period |
| PwmModel.TopBitsMeaning | src/int_pwm.rs:50-51 | the resolutions tried are those up to 14 bits whose period the clock can count |
| PwmProofs.RunKeeps | src/int_pwm.rs:72-143 | over all calls, pins in use are allowed and distinct, duties at most full, and each channel programmed with its duty |
| PwmProofs.ChannelForEveryPin | src/int_pwm.rs:99-103 | the branch for running out of channels is never taken |
| PwmProofs.SetupMeaning | src/int_pwm.rs:87-118 | a positive result means the pin has its channel, a new one without duty, and is the frequency reached; otherwise no pin is added |
| PwmProofs.StopFrees | src/int_pwm.rs:135-141 | a stopped pin is free again and all others keep channel and duty |
| PwmProofs.FractionIsExact | src/int_pwm.rs:127-133 | a duty of value/max is programmed as floor(min(value, max) * 2^bits / max), then and after retuning |
| PwmProofs.PulseIsExact | src/int_pwm.rs:130-133 | so is a duty in microseconds |
| PwmProofs.FractionCall | src/int_pwm.rs:119-134 | with pin, value and largest value on the stack, in this order, the call programs exactly that fraction and takes the three |
| PwmProofs.PulseCall | src/int_pwm.rs:119-134 | with pin and microseconds, that part of the period |
| PwmProofs.SetupCall | src/int_pwm.rs:88-118 | with pin and frequency, the frequency reached takes their place, and the pin has its channel with the duty it had, or none |
| PwmProofs.StopCall | src/int_pwm.rs:135-141 | with the pin, its channel is free |
| PwmProofs.UnknownCall | src/int_pwm.rs:72-85 | of a function that does not exist only the pin is taken |
| PwmProofs.RefusedCall | src/int_pwm.rs:72-141 | exactly when a call is refused, with which error, and that it then changes nothing |
| PwmProofs.RefusedSetup | src/int_pwm.rs:75-93 | and when a setup is, which leaves a 0 |
| PwmProofs.HighestResolution | src/int_pwm.rs:49-70 | a retuned timer runs at the highest countable resolution it accepts, and fails only when it accepts none |
| Pwm.Pwm.Position | src/int_pwm.rs:37-39 | finds the first entry |
| Pwm.Pwm.ApplyAll | src/int_pwm.rs:62-64 | every channel in use, and no other, is given its duty again |
| Pwm.Pwm.SetFrequencyOf | src/int_pwm.rs:50-70 | the retry loop chooses the first resolution taken |
| Pwm.Pwm.SetupPin | src/int_pwm.rs:88-118 | sets a pin up on its own or a free channel |
| Pwm.Pwm.SetPinDuty | src/int_pwm.rs:119-134 | gives a pin a duty, or reports the error |
| Pwm.Pwm.CallOp | src/int_pwm.rs:72-143 | every branch takes exactly its operands off the stack and leaves exactly its result |
| VmClockProofs.NothingRunsEarly | src/nodem.rs:219-244 | while a wait is pending the VM is paused; frames before its deadline run nothing, the first one at or after it goes on |
| VmClockProofs.WaitUntilKeepsPeriod | src/int_time.rs:116-129 | any `wait_until` of any frame, after calls of it that did not pause: on time, it ends at the program's start, or the last late call, plus the sum of all intervals since; late, it returns at once and the calls after it count from now |
| VmClockProofs.SteadyPeriod | src/int_time.rs:6-12 | a loop over one interval is exactly k periods from its base after k waits |
| VmClockProofs.HaltHoldsForTick | src/int_time.rs:55-62 | a program that halts by itself in any frame is run by a later one exactly when that comes at least the tick last set after its end: by the next one without a tick |
| VmClockProofs.WaitForDelays | src/int_time.rs:109-133 | `wait_for` pauses the VM for its interval, counted from the call |
| VmClockProofs.PausingCalls | src/int_time.rs:105-137 | exactly which calls pause the VM and which fail, and what they push; a failed one leaves the clock alone |
| VmClockProofs.SetTickOnlySetsTick | src/int_time.rs:131-137 | `set_tick` changes the tick and nothing else |
| VmClockProofs.LoadDropsWait | src/int_time.rs:46-53 | a newly loaded program runs in the next frame, counts from it and inherits neither wait nor tick |
| VmClockProofs.FrameKeepsStart | src/int_time.rs:46-53 | a program's start is the first frame that sees it, in every frame until another one is loaded |
| VmClockProofs.StepKeeps | src/nodem.rs:219-244 | every frame and load keeps the clock's invariant |
| VmClock.VmClock.HoldAt | src/int_time.rs:64-71 | holds until the deadline, and clears it once passed |
| VmClock.VmClock.StartTickAt | src/int_time.rs:55-62 | holds a halted program for its tick, unless a wait is pending |
| VmClock.VmClock.CallOp | src/int_time.rs:109-137 | computes the waits and set_tick, what they push and whether they pause |
| VmClock.NodemTask.MakeCalls | src/int_time.rs:105-137 | a program's calls of a frame, up to the first that pauses it |
| VmClock.NodemTask.RunFrame | src/nodem.rs:219-244 | the frame step: restart, hold by parking, run, tick |

## Left out

- The flush protocol is a transition system over values: updating `prep`, `spare` and `sent` in place
  is not modelled there. Other tasks sharing the executor appear as redraw and reconfigure steps; a change of
  mapping or of the blink phase counts as part of the next redraw. Timers may fire at any time, and a
  parked task is polled only when woken.
- The body of the page hash (FNV-1a) is not modelled: every result holds for any hash.
- Displays whose draw area starts past the RAM's edge (no columns) are excluded from the flush results;
  `OledConfig.DrawAreaFits` says exactly which those are.
- What the controllers' analog settings (clock, contrast, precharge, voltages) do to the picture.
- I2C, I2S, LEDC, NVS, OTA, HTTP and TLS internals, the `nodem-rs` runtime and the `virtmach` VM are environment.
- Machine wrap-around of `width * height` in the LED configuration: the product is a mathematical integer.
- The unused entries of the fixed channel table of a colour pattern: a pattern is the used ones.
- That no redraw is lost for the LED chain: its task clears the flag after the awaited write and relies on
  the next frame setting it again.
- "#factory"'s effect on the other namespaces, and commands that touch no registration key.
- The error texts kept with a failed registration status, and connection status.
- `get_time` and `get_date`; logging, "#stat", "#cfg" and "#nvs" output; Wi-Fi, heartbeat and UART buffering.
