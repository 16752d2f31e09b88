# Composter node: hex rendering and RF front-end switch, modelled in Dafny

The composter node is a LoRaWAN sensor built with TinyGo for the Nucleo
WL55JC1 board. This project models two small parts of it:

- **Hex rendering** (`extra` package, `extra.dfy`, module `Extra`).
  `ByteToHex` renders one byte as two upper-case hex digits, the high nibble
  first. `BytesToHexString` appends those renderings for a whole byte slice.
  The output is the Base16 encoding of section 8 of RFC 4648. The model
  proves this against an independent reference: the RFC's alphabet, plus a
  strict decoder (`DecodeByte`, `DecodeHex`) that inverts the encoder in both
  directions.
- **RF front-end switch** (`rfswitch` directory, package `radio`,
  `rfswitch.dfy`, module `RfSwitch`). `SetRfSwitchMode` maps the radio
  driver's three modes (RX, TX low power, TX high power) to levels of the
  control lines FE_CTRL1/PC4, FE_CTRL2/PC5 and FE_CTRL3/PC3. `InitRFSwitch`
  configures those pins as outputs. The pins are fields of the class
  `CustomSwitch`. The Go struct is empty and writes the board's global pins.
  The mode mapping is checked against the truth table in the file's header
  comment.

`wrappers.dfy` holds the `Option` type shared by both modules.

The mode codes `RFSWITCH_RX`, `RFSWITCH_TX_LP` and `RFSWITCH_TX_HP` belong to
the sx126x driver, which is not part of this model. They are carried as a
`ModeCodes` value, with no concrete numbers. The only assumption is that the
three codes are distinct, because Go rejects a switch with repeated constant
cases.

The mapping from mode to levels is the pure function `RfSwitch.SwitchLevels`.
The code writes the board's pins in place, so `SetRfSwitchMode` is a method
that changes the pin fields.

## Model

| member | source | states |
|---|---|---|
| `Extra.HighNibble` | apps/gnse-lorawan-composter/extra/helper.go:7 | `(b >> 4) & 0x0F` on an unsigned byte is a nibble equal to `b / 16` |
| `Extra.LowNibble` | apps/gnse-lorawan-composter/extra/helper.go:15 | `b & 0xF` is a nibble equal to `b % 16` |
| `Extra.HexDigit` | apps/gnse-lorawan-composter/extra/helper.go:9-13 | the digit rule (`'0'+n` below ten, otherwise `'A'+(n-10)`) gives exactly the RFC 4648 Base16 alphabet entry for `n`, always `0-9` or upper-case `A-F` |
| `Extra.DigitValue` | apps/gnse-lorawan-composter/extra/helper.go:16-20 | the inverse of the digit rule: defined exactly on `0-9` and `A-F` (never lower case), giving the alphabet position of the character |
| `Extra.DigitRoundTrip` | apps/gnse-lorawan-composter/extra/helper.go:9-13 | decoding the digit written for nibble `n` gives back `n` |
| `Extra.DigitValueInverse` | apps/gnse-lorawan-composter/extra/helper.go:16-20 | every canonical digit is the one the digit rule writes for its value |
| `Extra.ByteToHex` | apps/gnse-lorawan-composter/extra/helper.go:6-22 | the result has exactly 2 characters: the alphabet entry of the high nibble, then that of the low nibble, both upper-case hex digits |
| `Extra.DecodeByte` | apps/gnse-lorawan-composter/extra/helper.go:7-21 | a two-character string decodes (as `16*hi + lo`) exactly when both characters are canonical digits |
| `Extra.ByteToHexRoundTrip` | apps/gnse-lorawan-composter/extra/helper.go:7-21 | decoding the two digits of `ByteToHex(b)` as `16*hi + lo` yields `b` |
| `Extra.DecodeByteInverse` | apps/gnse-lorawan-composter/extra/helper.go:7-21 | every decodable two-digit string is `ByteToHex` of its value, so `ByteToHex` is onto the canonical pairs |
| `Extra.ByteToHexInjective` | apps/gnse-lorawan-composter/extra/helper.go:6-22 | two bytes render equally if and only if they are equal |
| `Extra.HexOf` | apps/gnse-lorawan-composter/extra/helper.go:25-31 | the rendering of a byte slice has length exactly `2*len(data)`, so the empty slice gives the empty string |
| `Extra.HexOfAt` | apps/gnse-lorawan-composter/extra/helper.go:27-29 | characters `2i` and `2i+1` are `ByteToHex(data[i])`, so byte order is kept |
| `Extra.HexOfAppend` | apps/gnse-lorawan-composter/extra/helper.go:26-30 | the rendering of `a ++ b` is the rendering of `a` followed by that of `b` |
| `Extra.HexOfCons` | apps/gnse-lorawan-composter/extra/helper.go:26-30 | the rendering of `[b] ++ rest` is `ByteToHex(b)` followed by the rendering of `rest` |
| `Extra.HexOfAlphabet` | apps/gnse-lorawan-composter/extra/helper.go:25-31 | every character of the output is `0-9` or upper-case `A-F`, with no separators |
| `Extra.DecodeHex` | apps/gnse-lorawan-composter/extra/helper.go:25-31 | a decodable string has twice as many characters as the bytes it decodes to (the inverse of the hex string rendering) |
| `Extra.HexRoundTrip` | apps/gnse-lorawan-composter/extra/helper.go:25-31 | decoding the rendering of `data` gives back `data` |
| `Extra.DecodeHexInverse` | apps/gnse-lorawan-composter/extra/helper.go:25-31 | every decodable string is the rendering of what it decodes to |
| `Extra.HexOfInjective` | apps/gnse-lorawan-composter/extra/helper.go:25-31 | two byte slices render equally if and only if they are equal |
| `Extra.BytesToHexString` | apps/gnse-lorawan-composter/extra/helper.go:25-31 | the loop (invariant: after `i` bytes the accumulator is the rendering of `data[..i]`) returns the rendering of `data`, of length `2*len(data)`; `HexRoundTrip` and `HexOfAt` then say it decodes back to `data` byte by byte |
| `RfSwitch.Recognise` | apps/gnse-lorawan-composter/rfswitch/wl55jc.go:31-47 | a code selects no mode exactly when it is none of the three constants; with distinct constants it selects mode `m` exactly when it is `m`'s code |
| `RfSwitch.SwitchLevels` | apps/gnse-lorawan-composter/rfswitch/wl55jc.go:33-46 | the levels each case sets agree, line by line, with the documented truth table at lines 8-11; PC3 (FE_CTRL3) is on in every mode |
| `RfSwitch.Documented` | apps/gnse-lorawan-composter/rfswitch/wl55jc.go:8-11 | the header comment's truth table: FE_CTRL1 (PC4) is ON except in Tx_HP, FE_CTRL2 (PC5) is ON except in RX, FE_CTRL3 (PC3) is ON in every mode |
| `RfSwitch.Apply` | apps/gnse-lorawan-composter/rfswitch/wl55jc.go:31-47 | the pins after one call: an unrecognised code leaves them as they were; a recognised code leaves them reading back as that code's mode, with PC3 on |
| `RfSwitch.ModeOfLevels` | apps/gnse-lorawan-composter/rfswitch/wl55jc.go:8-11 | a pin triple reads as a mode only if FE_CTRL3 is on and FE_CTRL1 or FE_CTRL2 is on |
| `RfSwitch.ModeRecoverable` | apps/gnse-lorawan-composter/rfswitch/wl55jc.go:33-46 | the mode read back from `SwitchLevels(m)` is `m`, and a triple reads as `m` only if it is `SwitchLevels(m)` |
| `RfSwitch.SwitchLevelsInjective` | apps/gnse-lorawan-composter/rfswitch/wl55jc.go:33-46 | the three modes produce pairwise distinct pin triples |
| `RfSwitch.ApplyMode` | apps/gnse-lorawan-composter/rfswitch/wl55jc.go:31-47 | passing mode `m`'s code leaves the pins in `m`'s documented state, whatever they were before |
| `RfSwitch.ApplyLastWins` | apps/gnse-lorawan-composter/rfswitch/wl55jc.go:31-47 | after two calls the pins are those of the second call when it is recognised, and a repeated call changes nothing |
| `RfSwitch.CustomSwitch.constructor` | apps/gnse-lorawan-composter/rfswitch/wl55jc.go:21-22 | a switch over pins at the given levels, not yet configured as outputs |
| `RfSwitch.CustomSwitch.InitRFSwitch` | apps/gnse-lorawan-composter/rfswitch/wl55jc.go:24-28 | PC4, PC5 and PC3 become outputs; no pin level changes |
| `RfSwitch.CustomSwitch.SetRfSwitchMode` | apps/gnse-lorawan-composter/rfswitch/wl55jc.go:30-50 | RX sets PC4 on, PC5 off, PC3 on; TX_LP sets all three on; TX_HP sets PC4 off, PC5 on, PC3 on; any other code leaves the pins unchanged; the error result is always nil |

## Left out

- `GetRand16` (apps/gnse-lorawan-composter/extra/helper.go:34-46) is not modelled. It reads entropy from `crypto/rand`, a foreign call, and on failure it spins forever.
- `lorawan_demo.go` is not modelled. It holds board bring-up, the sx126x radio driver and its interrupt handler, the join-retry goroutine and its shared `loraConnected` flag, the sampling loop over the shtc3 sensor, the Cayenne LPP encoder, and the LoRaWAN stack. All of these are concurrency, sleeps or calls into libraries that are not part of this model. Its logging uses the Go library's lower-case `hex.EncodeToString`, not `BytesToHexString`.
- The numeric values of the sx126x mode constants are not part of this model. Only their distinctness is used.
- `RfSwitch.CustomSwitch.SetRfSwitchMode` states only the pin levels after the call. It does not model the order of the three `Set` writes or the intermediate levels between them, which the hardware can briefly show.
- `RfSwitch.CustomSwitch`: here each object has its own pin-level and output-configuration fields. In Go, `CustomSwitch` is an empty struct with value receivers, and every copy writes the same board-global pins `machine.PC4`, `PC5` and `PC3`. So two switch objects in this model do not share pins, while in Go they would. The program creates a single switch, so nothing it does depends on this.
- `RfSwitch.CustomSwitch.InitRFSwitch` records only that each pin is an output. It does not model the other fields of `machine.PinConfig`.
- `Extra.DecodeHex` and `Extra.DecodeByte` accept only the upper-case alphabet that `ByteToHex` writes. Section 8 of RFC 4648 also allows decoders to accept lower case. These two functions exist only to state the round trips, and the source has no decoder.
