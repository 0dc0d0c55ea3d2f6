# chip8go core, modelled in Dafny

This project models the core of the chip8go CHIP-8 interpreter (package `emu`):

- **The display.** A 64×32 grid of byte pixels indexed `[x][y]` and a redraw flag, with these operations:
  - `Clear`
  - `DrawSprite`, which XORs one 8-bit sprite row onto the grid and reports whether a lit pixel was erased.
- **The keypad.** Sixteen keys and a "waiting for input" flag, with `IsPressed` and `Update`.
- **The register file.** `CPU`, with its `Setup`.
- **One interpreter cycle**, as far as the source goes:
  - It fetches the big-endian 16-bit instruction at the program counter.
  - It classifies the instruction. `00E0` and `00EE` are matched exactly. Every other instruction is matched on `instruction & 0xF000`.

Go's fixed-width integers are modelled as integer subtypes. `byte` is 0..255 and `uint16` is 0..65535. Wrap-around is explicit: `AddByte`, `SubByte` and `AddU16` take the sum modulo 2^8 or 2^16.

The operators `&`, `|` and `^` are one bit-by-bit function, `Bits.Bitwise`. This includes the `& 1` that extracts a sprite bit; `Bits.AndOne` proves it equals `% 2`, the form in which the specification function `SpriteBit` is written. `>>` is `Bits.Shr` and `<<` is `Bits.Shl`. The operations the cycle uses are proved against plain arithmetic:
- `uint16(hi) << 8 | uint16(lo)` is `hi * 256 + lo`.
- `instruction & 0xF000` is `(instruction >> 12) * 0x1000`.

The classes keep the source's state in place:
- `Display` holds the pixel grid as an `array2<byte>`. Its methods are proved against value-level functions on a snapshot of the grid, a sequence of columns:
  - `Drawn` is what the source draws.
  - `Collides` is what it returns.
  - `DrawnWrapped` is the corrected drawing.

  Lemmas about these functions carry the properties.
- `Input` holds its keys in an `array<bool>`.
- `CPU` keeps `V` and `Stack` as arrays. It also has a value snapshot, `CpuState`.

Files:
- `bits.dfy` (module `Bits`): integer widths, shifts and bitwise operators.
- `display.dfy` (module `Display`)
- `input.dfy` (module `Input`)
- `memory.dfy` (module `Memory`): the RAM as an abstract byte array, and `RamProgramStart = 0x200`.
- `cpu.dfy` (module `Cpu`)
- `emulator.dfy` (module `Emulator`): fetch and decode.

## Model

| member | source | states |
|---|---|---|
| `Display.Display.constructor` | emu/display.go:11-14 | A new `Display` is the Go zero value: every pixel is 0 and `Draw` is false. |
| `Display.Display.Clear` | emu/display.go:16-22 | Afterwards every one of the 64×32 pixels is 0. The array and the `Draw` flag are the same as before. |
| `Display.Display.XorPixel` | emu/display.go:36 | `Pixels[c][r] ^= value` changes pixel (c, r) to its old value XOR value and changes no other pixel. |
| `Display.Display.DrawSpriteBit` | emu/display.go:30-40 | One pass of the loop turns the screen with sprite bits 0..d-1 drawn into the screen with bits 0..d drawn. It reports exactly whether the pixel under bit d was 1 while the bit was 1. |
| `Display.Display.DrawSprite` | emu/display.go:24-44 | The new grid is `Drawn(old grid, x, y, row)`. The result is `Collides(old grid, x, y, row)`. Both follow the byte loop as written, including the `x+8` wrap-around. |
| `Display.Display.DrawSpriteWrapped` | emu/display.go:29-40 | Corrected drawing: the new grid is `DrawnWrapped(old grid, ...)` for every x. The result reports whether any of the eight pixels was erased. |
| `Display.NoWrap` | emu/display.go:29-34 | Inside the loop, `x + 8 - i - 1` is 7 − d on bytes and `i++` does not wrap. |
| `Display.SpriteBitAt` | emu/display.go:34 | `row >> shift & 1`, the `&` taken bit by bit as Go does, with shift 7 − d, is sprite bit d, counted from the most significant bit (`(row >> (7 − d)) mod 2`), and it is 0 or 1. |
| `Bits.AndOne` | emu/display.go:34 | `a & 1`, taken bit by bit, is the lowest bit of a, `a mod 2`. |
| `Display.ErasedIff` | emu/display.go:33-40 | A pixel goes from 1 to 0 under `^= v`, with v a bit, exactly when it was 1 and v is 1. |
| `Display.DrawnAt` | emu/display.go:29-36 | When `x + 8` does not wrap, pixel ((x+k) mod 64, y mod 32) becomes its old value XOR sprite bit k, for k = 0..7, most significant bit first. |
| `Display.ColumnsDistinct` | emu/display.go:29-30 | The eight target columns `(x+k) mod 64` are pairwise distinct. |
| `Display.DrawnFrame` | emu/display.go:29-36 | A pixel that is not under a drawn sprite bit on line `y mod 32` is unchanged. |
| `Display.XorRowTwice` | emu/display.go:29-36 | XORing the same sprite bits twice restores the screen. |
| `Display.DrawTwiceRestores` | emu/display.go:24-44 | Drawing the same row at the same place twice gives back the original screen. |
| `Display.DrawWrappedTwiceRestores` | emu/display.go:29-36 | The same holds for the corrected drawing. |
| `Display.DrawnKeepsBinary` | emu/display.go:33-36 | A screen whose pixels are all 0 or 1 stays that way after drawing. |
| `Display.CollidesIffErased` | emu/display.go:24-43 | The returned flag is true if and only if some pixel went from 1 to 0. |
| `Display.CollisionErases` | emu/display.go:38-40 | A reported collision erases a pixel. |
| `Display.ErasureCollides` | emu/display.go:38-40 | An erased pixel implies a reported collision. |
| `Display.RedrawCollides` | emu/display.go:33-40 | On a 0/1 screen, drawing the same row again collides if and only if the first drawing turned some pixel from 0 to 1. |
| `Display.OverflowDrawsNothing` | emu/display.go:29 | For x ≥ 248, `x+8` wraps below x and the loop never runs. The screen is unchanged and the result is false. |
| `Display.EmptyRowDrawsNothing` | emu/display.go:34-36 | A zero sprite row changes no pixel and reports no collision. |
| `Display.DrawOnBlank` | emu/display.go:29-40 | On a cleared screen, the drawn pixels equal the sprite bits and nothing collides. |
| `Display.OverflowLosesSprite` | emu/display.go:29 | As written, row 0x80 drawn at x = 250 on a blank screen leaves the screen blank. The wrapped drawing lights column 58. |
| `Display.DrawnWrappedAt` | emu/display.go:29-36 | The corrected drawing XORs sprite bit k onto column (x+k) mod 64 for every x. It equals the as-written drawing whenever `x + 8` does not wrap. |
| `Bits.Xor8OnBits` | emu/display.go:36 | On 0/1 values, byte `^` is 1 exactly when the operands differ. |
| `Bits.Xor8Zero` | emu/display.go:36 | `p ^ 0 == p` on bytes. |
| `Bits.Xor8Twice` | emu/display.go:36 | `p ^ v ^ v == p` on bytes. |
| `Bits.XorSelfInverse` | emu/display.go:36 | The n-bit `^ b` is its own inverse. |
| `Input.Input.constructor` | emu/input.go:3-7 | A new `Input` is the Go zero value: all sixteen keys are up and it is not waiting for input. |
| `Input.Input.IsPressed` | emu/input.go:9-11 | Returns exactly the stored state of key `keyIndex` and changes nothing. |
| `Input.Input.Update` | emu/input.go:13-15 | The key array becomes the old one with entry `keyIndex` replaced by `pressed`. `WaitingForInput` and the array reference are unchanged. |
| `Input.UpdateThenRead` | emu/input.go:9-15 | After `Update(k, p)`, key k reads back as p and every other key keeps its value. |
| `Input.UpdateIdempotent` | emu/input.go:13-15 | `Update(k, p)` twice has the same effect as once. |
| `Cpu.CPU.constructor` | emu/cpu.go:3-12 | A new `CPU` is the Go zero value: sixteen zero registers, a zero stack of sixteen slots, and I, PC, SP and both timers zero. |
| `Cpu.CPU.Setup` | emu/cpu.go:14-16 | PC becomes `RamProgramStart` (0x200). Every other register, the stack and the timers keep their values. |
| `Cpu.AfterSetup` | emu/cpu.go:14-16 | The state after `Setup` has pc = 0x200 and agrees with the state before in every other field. |
| `Cpu.SetupIdempotent` | emu/cpu.go:14-16 | `Setup` twice is `Setup` once. |
| `Cpu.SetupOfZero` | emu/cpu.go:3-16 | A fresh CPU after `Setup` is all zero except PC = 0x200, with 16 registers and 16 stack slots. |
| `Memory.Memory.constructor` | emu/emulator.go:7 | `new(Memory)` gives a zeroed RAM of the chosen size. |
| `Bits.OrHighLow` | emu/emulator.go:30 | The OR of `uint16(hi) << 8` and `uint16(lo)` equals `hi * 256 + lo`, and splitting it by 256 gives back hi and lo. |
| `Emulator.Fetch` | emu/emulator.go:30 | The fetched instruction is `RAM[PC] * 256 + RAM[PC+1]`, with `PC+1` in uint16 arithmetic. Its high and low bytes are those two RAM bytes. Both addresses must lie inside RAM. |
| `Bits.AndHighMask` | emu/emulator.go:45 | `a & mask`, where the mask has bits k..n-1 set, is `(a >> k) << k`. |
| `Emulator.FamilyBits` | emu/emulator.go:45 | `instruction & 0xF000` is the top nibble (below 16) shifted back into place, `(instruction >> 12) * 0x1000`. |
| `Emulator.SwitchOnNibble` | emu/emulator.go:45-98 | Each of the sixteen values `t * 0x1000` reaches a non-default case of the inner switch; `NibbleFamily` is the same table indexed by the nibble t. |
| `Emulator.DecodeByTopNibble` | emu/emulator.go:37-99 | The switch classifies `00E0` as CLS and `00EE` as RET. Every other instruction goes to the family of its top nibble. |
| `Emulator.DecodeTotal` | emu/emulator.go:37-99 | Every instruction reaches a case, so the panic at line 47 is unreachable. The CLS case is reached exactly by `00E0` and the RET case exactly by `00EE`. |
| `Emulator.SysFamily` | emu/emulator.go:49-50 | Every `0nnn` other than `00E0` and `00EE` is SYS. |
| `Emulator.EmulateCycle` | emu/emulator.go:26-106 | One cycle returns the fetched instruction `RAM[PC] * 256 + RAM[PC+1]` and its decoded case, which is never the panic. It writes no state, because the program-counter increment is commented out and no case has a body. |

## Left out

- `Run` and `loop` (emu/emulator.go:5-24) are left out. They form an endless loop around file I/O (`LoadGame`) and call `display.Draw(mem)` and `input.Update()`, which have no definitions with those signatures in the source.
- The `fmt.Printf` of every fetched instruction (emu/emulator.go:33) is console I/O.
- The `Memory` type, with `Setup`, `LoadGame` and the RAM size, comes from a file that is not part of this model:
  - RAM is a byte array of whatever size the caller allocates.
  - Only `RamProgramStart = 0x200` is fixed.
- `PixelFontByteLength` (emu/display.go:8) is used by no modelled operation.
- The `Draw` flag and `WaitingForInput` are modelled as fields. No modelled operation changes them.
- The effects of individual instructions are not modelled. The source gives every case an empty body. `Family` only names the case each instruction reaches.
- `Emulator.Fetch`: the Go program panics when `PC` or `PC+1` lies outside RAM. The model requires both to be inside RAM instead of modelling the panic.
- `Input.Input.IsPressed`: an index of 16 or more panics in Go. The model requires `keyIndex < 16`.
- `Input.Input.Update`: the same applies, so the model requires `keyIndex < 16`.
- Also not modelled, because they do not belong to this core:
  - audio (emu/audio.go)
  - the window and the key mapping (main.go)
  - emu/emulator_test.go, which refers to an `Emulator` type and an `opFx65` method that the source does not define

## Findings

| source | as written | input that shows it | evidently intended | confidence | as-written member | corrected member |
|---|---|---|---|---|---|---|
| emu/display.go:29 | `for i := x; i < x+8; i++` runs over `byte`. For x ≥ 248, `x+8` wraps to x − 248, which is below x, so the loop never runs. Nothing is drawn and no collision is reported. | `DrawSprite(250, 0, 0x80)` on a cleared screen leaves it blank. | Eight pixels drawn at columns (x+k) mod 64, since `xIndex := i % ScreenWidthPx` shows that horizontal wrapping is meant. Pixel (58, 0) lights up. | not executed | `Display.OverflowLosesSprite` | `Display.DrawnWrappedAt` |
