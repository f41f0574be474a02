# Analog temperature logger: ADC framing and rolling history

A Dafny model of the two pieces of sequential logic in `analog_temp.py`, a
script that samples an LM35-type sensor through an MCP3008 10-bit
analog-to-digital converter on SPI and plots the last 60 readings:

- **`read_adc`**: it checks the channel (outside 0..7 gives the sentinel -1
  and no bus transfer), builds the request `[1, (8 + channel) << 4, 0]` and
  decodes the response as `((r[1] & 3) << 8) + r[2]`. The SPI exchange is a
  parameter, a function from the frame sent to the frame received
  (`Mcp3008.Bus`). The result records which frames were put on the bus, so
  "no transfer" can be stated.
- **The rolling history**: `time_data` and `temperature_data` are two
  `deque(maxlen=60)` objects. The loop appends to both once per cycle. They
  are modelled as a class `BoundedDeque`, which has CPython's append
  semantics (append on the right, then drop the leftmost item if the deque
  is longer than `maxlen`), and a class `History` that owns the two deques.
  What each deque holds is specified by `RollingWindow.Window`, the newest n
  items of everything appended to it.
- **The loop body** (read, convert, append twice) is `SamplingLoop.Cycle`.
  A run of finitely many cycles is `SamplingLoop.Run`. The clock reading and
  the bus of each cycle are inputs (`Tick`). The float conversion to
  degrees is a parameter `convert: int -> real`.

Python's `<<`, `>>` and `&` on non-negative integers are written out in
module `PyInt`: `Shl`, `Shr`, and a bit-by-bit `BitAnd`. Python integers do
not wrap, so neither do these. The lemma `BitAndLowMask` connects masking
with `2**k - 1` to the remainder modulo `2**k`.

Files: `pyint.dfy` (Python integer operators), `mcp3008.dfy` (the ADC
reader), `window.dfy` (the value-level meaning of a bounded deque),
`history.dfy` (the deque and history classes), `loop.dfy` (the sampling
loop).

Two details of the code that the model keeps:
- The decode adds the last byte, `+ adc[2]`. The shifted part has its low 8
  bits clear (`PyInt.Shl`), so `+` gives the same value as a bitwise or.
- CPython's `deque.append` appends and then trims the left end. The contents
  afterwards are the same as if the oldest item had been dropped first.

## Model

| member | source | states |
|---|---|---|
| PyInt.BitAnd | analog_temp.py:33 | Python's `&` on non-negative integers; the result never exceeds either operand |
| PyInt.BitAndLowMask | analog_temp.py:33 | `x & (2**k - 1)` equals `x % 2**k` for every non-negative x and k, so `r1 & 3` is `r1 % 4` and `v & 0xFF` is `v % 256` |
| PyInt.Shl | analog_temp.py:32-33 | Python's `x << n`: the n low bits of the result are clear, and `(x << n) >> n == x` |
| Mcp3008.ValidChannel | analog_temp.py:30 | a channel is valid exactly when the guard `channel < 0 or channel > 7` is false, and a valid channel fits the three-bit channel-select field (`channel & 7 == channel`) |
| Mcp3008.Request | analog_temp.py:32 | the request starts with 1 and ends with 0; the middle byte has bit 7 (single-ended) set, bits 4..6 equal to the channel, a clear low nibble, and lies in 128..240 |
| Mcp3008.RequestByteFields | analog_temp.py:32 | for channels 0..7, `(8 + channel) << 4` lies in 128..240, has bit 7 set, carries the channel in bits 4..6 and has a clear low nibble |
| Mcp3008.Decode | analog_temp.py:33 | the decoded value is `(r1 mod 4) * 256 + r2` and lies in 0..1023 |
| Mcp3008.ReadAdc | analog_temp.py:25-34 | a channel outside 0..7 returns -1 with no transfer; a valid channel makes exactly one transfer, of its request, and returns the decoded response; the result is -1 exactly when the channel is invalid, and lies in -1..1023 |
| Mcp3008.SampleResponse | analog_temp.py:33 | the response a converter holding v sends, `[x, v >> 8, v & 0xFF]`; its first byte is x and its middle byte is below 4 |
| Mcp3008.DecodeSampleResponse | analog_temp.py:33 | round trip: every v in 0..1023 framed as `[x, v >> 8, v & 0xFF]` decodes back to v, whatever x is |
| Mcp3008.SampleResponseOfDecode | analog_temp.py:33 | the other round trip: re-framing a decoded response gives back its first byte, the low two bits of its middle byte and its last byte |
| Mcp3008.DecodeDeterminedByLowBits | analog_temp.py:33 | two responses decode to the same value if and only if they agree on `r1 mod 4` and on `r2`; `r0` and the upper six bits of `r1` never matter |
| Mcp3008.RequestInjective | analog_temp.py:32 | two valid channels give the same request if and only if they are the same channel |
| Mcp3008.ReadAdcOfSample | analog_temp.py:30-34 | on a valid channel, reading a converter that answers with the framing of v returns v |
| Mcp3008.SensorReadIsSample | analog_temp.py:60 | reading the sensor channel 0 never returns the sentinel and sends exactly `[1, 128, 0]` |
| Mcp3008.DecodeExample | analog_temp.py:33 | the response `[0, 1, 200]` decodes to 456 |
| RollingWindow.Zip | analog_temp.py:64-65 | pairing two equal-length sequences index by index: entry i of the result is entry i of each |
| RollingWindow.Window | analog_temp.py:15-16 | what a `deque(maxlen=n)` holds: min(length, n) items, and they are the newest suffix of everything appended, in original order |
| RollingWindow.WindowOfShort | analog_temp.py:15-16 | a sequence that fits in the capacity is kept whole |
| RollingWindow.AppendOne | analog_temp.py:15-16 | one append: the length becomes min(old + 1, n); below capacity the item is simply added; at capacity exactly the oldest item is dropped; the new item is last; with capacity 0 nothing is kept |
| RollingWindow.WindowAbsorbs | analog_temp.py:15-16 | trimming early and appending more gives the same contents as appending everything and trimming once, so a bounded deque is always the window on its whole history of appends |
| RollingWindow.ZipAppend | analog_temp.py:64-65 | appending one item to each of two aligned sequences appends the pair of those items |
| RollingWindow.ZipWindow | analog_temp.py:64-65 | two aligned sequences trimmed to the same capacity keep equal lengths, and pairing them gives the window of the pairs |
| RollingWindow.OverflowByOne | analog_temp.py:15-16 | after n + 1 appends to an empty deque of capacity n, exactly the first item is gone and the other n remain in order |
| RollingHistory.BoundedDeque.constructor | analog_temp.py:15-16 | a new deque is empty and has the given maxlen |
| RollingHistory.BoundedDeque.Append | analog_temp.py:64-65 | `append`: the deque keeps at most maxlen items, and the new contents are the window of the old contents followed by the item |
| RollingHistory.History.constructor | analog_temp.py:15-16 | both deques are new, distinct, of capacity 60 and empty |
| RollingHistory.History.Readings | analog_temp.py:64-65 | the stored (timestamp, temperature) pairs, at most 60 of them, with entry i of one deque paired with entry i of the other |
| RollingHistory.History.Record | analog_temp.py:64-65 | the two appends of one cycle: each deque becomes the window of its old contents plus the new item, the deques stay of equal length, and the pairs become the window of the old pairs plus (t, v) |
| SamplingLoop.Sampled | analog_temp.py:60-64 | one cycle's recorded pair: the clock reading, and the conversion of the decoded answer to the channel-0 request `[1, 128, 0]` |
| SamplingLoop.Samples | analog_temp.py:58-65 | the pairs a series of cycles records: one per cycle, in cycle order, each the cycle's timestamp and its converted reading |
| SamplingLoop.Cycle | analog_temp.py:60-65 | one pass of the loop: it reads channel 0, converts the result, records (timestamp, temperature), and returns the temperature it prints |
| SamplingLoop.Run | analog_temp.py:57-74 | a run of cycles: the history ends as the window on its old pairs followed by every cycle's pair, and one temperature is returned per cycle, in order |
| SamplingLoop.RunStep | analog_temp.py:58-65 | one more cycle extends the window on the history by exactly that cycle's pair |
| SamplingLoop.SampledOfSample | analog_temp.py:60-65 | a cycle whose converter holds v records the cycle's timestamp with the conversion of v, whatever first byte the converter sends |
| SamplingLoop.SamplesOfThree | analog_temp.py:58-65 | three cycles record their three pairs, in cycle order |
| SamplingLoop.ThreeCycles | analog_temp.py:60-65 | three cycles from empty with the converter holding 100, 200 and 300 record exactly those three conversions, in that order, whatever first byte the converter sends |
| SamplingLoop.SixtyOneCycles | analog_temp.py:15-16 | 61 cycles from empty keep the last 60 pairs, in order, and the first one is gone |

## Left out

- SPI bus setup, the hardware exchange `spi.xfer2` and `spi.close` (analog_temp.py:10-12, 80) are device I/O. The exchange is the `Bus` parameter of `ReadAdc`.
- `convert_to_temperature` (analog_temp.py:36-44) is floating-point arithmetic. It is the `convert` parameter of the loop model. The reader's result reaches it unfiltered (analog_temp.py:60-61), so a sentinel would be converted too; on the fixed channel 0 this cannot happen (`SensorReadIsSample`).
- `update_plot` and the Matplotlib setup (analog_temp.py:19-23, 46-55) are display output.
- `time.time()` is the clock. It is an input (`Tick.now`). `time.sleep` and the console `print` are left out; `Cycle` returns the value that is printed.
- The `while True` loop (analog_temp.py:57-80) is left either by `KeyboardInterrupt` or by any exception raised in its body, for example an `OSError` from `spi.xfer2` (analog_temp.py:32) or an error from `update_plot` (analog_temp.py:71). On every one of these paths the `finally` closes the bus. The model is `Run` over a finite number of cycles, with the end falling between two cycles. An interrupt or a fault in the middle of a cycle, the exception paths and the closing of the bus are not modelled.
- A failing transfer or plot call ends the loop in the source. The model's `Bus` is a total function and always answers, so a failing transfer cannot be expressed, and the plot is not modelled.
- Timestamps and temperatures are Python floats. They are modelled as `real`, since the history only stores them.
- `PyInt.BitAnd`, `Shl`, `Shr`: only non-negative operands are modelled. Python's two's-complement `&` and `>>` on negative integers are never used by this code, because response bytes are 0..255 and channels are checked first.
- A float channel outside 0..7 returns -1; one inside 0..7 raises `TypeError` at `(8 + channel) << 4` (analog_temp.py:32) before any transfer. Neither is modelled; the channel is an `int`.
