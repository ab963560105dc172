# qrStream framing layer, in Dafny

qrStream sends a payload through a sequence of QR codes. Each code holds one
JSON-serialised *frame*. A START frame announces the payload kind, the number
of DATA frames, and a checksum of the whole payload with its algorithm. One
DATA frame per chunk carries the chunk's position and text. An END frame
repeats the checksum and the count. This project models the framing layer
that builds and classifies those frames (`src/lib/protocol.ts`) and the
checksum engine it relies on (`src/lib/checksum.ts`), and proves properties
of both.

Modules, one concept each:

- `JsText` (`jstext.dfy`): JavaScript strings as sequences of UTF-16 code
  units, with `slice` and `join('')`.
- `Hex` (`hex.dfy`): `toString(16)` and `padStart(width, '0')`, with the
  value a hex numeral denotes.
- `Types` (`types.dfy`): payload kinds, checksum algorithms and the three
  typed frames.
- `CrcRegister` (`crc_register.dfy`): the CRC-32 table and the register fold,
  on `bv32`. The JavaScript mixes int32 and uint32 views of the register, but
  every operation it applies is bitwise on the low 32 bits.
- `Checksum` (`checksum.dfy`): `crc32`, `sha256` and `computeChecksum`.
- `Protocol` (`protocol.dfy`): the record each frame is serialised as,
  `parseFrame` and the three `is…Frame` predicates.
- `Generator` (`generator.dfy`): `chunkData` and `generateFrames`.

A frame travels as the object `JSON.stringify` writes and `JSON.parse` reads
back. A `Record` (a map from key to JSON value) stands for both the sent text
and the received object. `Wire` says what `JSON.parse` produced: malformed
text, a value that is not an object, or an object.

The DATA branch of `parseFrame` is commented as recognising an object that
"has index and payload, no type" (src/lib/protocol.ts:91), but the code
never checks that `type` is absent. It accepts as DATA any object whose
`type` is neither `"START"` nor `"END"`, as long as it has a numeric `index`
and a string `payload`. `isDataFrame` rejects any object that has a `type`
key at all, so the parser and the predicate disagree on such objects. The
model follows the code, and `Protocol.UntaggedDataMismatch` exhibits one
such object.

The chunking loop at src/lib/protocol.ts:45 pushes no chunks for empty data,
whatever the chunk size. With non-empty data and `chunkSize <= 0` its counter
never reaches the length, so it never terminates. `Generator.ChunkData`
admits the first case and excludes the second.

## Model

| member | source | states |
|---|---|---|
| JsText.Slice | src/lib/protocol.ts:46 | `s.slice(start, end)` with non-negative bounds is never longer than `end - start`, and is non-empty when `start` lies inside the string before `end` |
| Hex.ToHex | src/lib/checksum.ts:18 | `n.toString(16)` is a non-empty lowercase hex numeral that reads back as `n`, and it has no leading zero unless it is `0` itself |
| Hex.PadStart | src/lib/checksum.ts:18 | `padStart(width, '0')` leaves a string of at least `width` code units unchanged; otherwise it yields exactly `width` code units, zeros followed by the original string |
| Hex.Render | src/lib/checksum.ts:18 | hex rendering then padding yields lowercase hex that reads back as `n`, at least `width` long, and exactly `width` long when `width >= 1` and `n < 16^width` |
| CrcRegister.BuildTable | src/lib/checksum.ts:4-11 | the nested table loop leaves entry `i` equal to eight reflected shifts of `i` (the polynomial 0xEDB88320 folded in whenever the low bit is set), which is the table `Table()` the register fold reads |
| CrcRegister.TableIndex | src/lib/checksum.ts:16 | the slot `(crc ^ charCodeAt(i)) & 0xff` is always a valid index below 256 and is the XOR of the low bytes of the register and the code unit |
| CrcRegister.RegisterSnoc | src/lib/checksum.ts:15-17 | appending one code unit to the input applies exactly one loop iteration to the register |
| CrcRegister.LowBytesDecide | src/lib/checksum.ts:16 | the register depends on each code unit only through its low byte: equal-length strings whose code units agree modulo 256 give the same register |
| Checksum.Finish | src/lib/checksum.ts:18 | the final rendering is exactly eight lowercase hex digits that read back as the complemented register taken unsigned |
| Checksum.Crc32 | src/lib/checksum.ts:13-19 | `crc32(str)` is eight lowercase hex digits denoting the complement of the register after every code unit is folded in from the all-ones seed |
| Checksum.ComputeCrc32 | src/lib/checksum.ts:13-19 | the loop as written produces `Crc32`: after `i` iterations the register is the fold over the first `i` code units |
| Checksum.Crc32OfEmpty | src/lib/checksum.ts:14-18 | the checksum of the empty string is `00000000` |
| Checksum.Crc32OfA | src/lib/checksum.ts:4-19 | the checksum of `"a"` is `e8b7be43`, the published CRC-32 check value |
| Checksum.Crc32LowBytes | src/lib/checksum.ts:16 | strings that agree on the low byte of every code unit have the same CRC-32, since `& 0xff` drops the high byte of `charCodeAt` |
| Checksum.HexOfBytes | src/lib/checksum.ts:26 | rendering bytes gives two lowercase hex digits per byte |
| Checksum.HexOfBytesRoundTrip | src/lib/checksum.ts:25-26 | reading the rendering back two digits at a time yields the original bytes |
| Checksum.HexOfDigest | src/lib/checksum.ts:25-26 | a 32-byte digest renders as 64 lowercase hex digits that read back as the digest |
| Checksum.Sha256 | src/lib/checksum.ts:21-27 | `sha256(str)` is 64 lowercase hex digits that read back as the SHA-256 digest of `str` |
| Checksum.ComputeChecksum | src/lib/checksum.ts:29-37 | `crc32` selects eight digits denoting the CRC-32 register result; anything else selects 64 digits denoting the SHA-256 digest, always of the whole input |
| Protocol.CreateStartFrame | src/lib/protocol.ts:10-24 | the START record has exactly the keys `type`, `dataType`, `totalFrames`, `checksum` and `checksumAlgo`, and `isStartFrame` accepts it while `isEndFrame` and `isDataFrame` reject it |
| Protocol.CreateDataFrame | src/lib/protocol.ts:26-29 | the DATA record has exactly the keys `index` and `payload`, and `isDataFrame` accepts it while `isStartFrame` and `isEndFrame` reject it |
| Protocol.CreateEndFrame | src/lib/protocol.ts:31-41 | the END record has exactly the keys `type`, `checksum` and `totalFrames`, and `isEndFrame` accepts it while `isStartFrame` and `isDataFrame` reject it |
| Protocol.Encode | src/lib/protocol.ts:10-41 | a frame's record carries a `type` key exactly when the frame is START or END, and `parseFrame` returns a frame (never null) for the record of every frame |
| Protocol.EncodeInjective | src/lib/protocol.ts:10-41 | serialisation is lossless: two frames with the same record are the same frame |
| Protocol.ParseEncoded | src/lib/protocol.ts:10-41 | the record of every frame the builders produce parses back as its own kind and as the very object sent, so a DATA frame keeps its index and payload |
| Protocol.ParseFrame | src/lib/protocol.ts:77-100 | malformed text and non-objects give null; otherwise START exactly when `type` is `"START"`, END exactly when `type` is `"END"`, DATA exactly when neither holds and `index` is a number and `payload` a string; the decoded object is returned unchanged |
| Protocol.IsStartFrame | src/lib/protocol.ts:102-104 | `isStartFrame` holds exactly when `parseFrame` takes the object for a START frame; its exclusion from END and DATA is stated in the two rows below |
| Protocol.IsEndFrame | src/lib/protocol.ts:106-108 | a record recognised as END is never also recognised as START by `isStartFrame` |
| Protocol.IsDataFrame | src/lib/protocol.ts:110-112 | a record recognised as DATA is never also recognised as START by `isStartFrame` or as END by `isEndFrame` |
| Protocol.PredicatesClassifyEncoded | src/lib/protocol.ts:102-112 | on the record of a built frame each predicate holds exactly for its own kind |
| Protocol.ParseAgreesWithPredicates | src/lib/protocol.ts:77-112 | the parser and the predicates agree on START and on END in both directions; a DATA parse implies `isDataFrame` when there is no `type` key, and `isDataFrame` with a numeric `index` and a string `payload` implies a DATA parse |
| Protocol.UntaggedDataMismatch | src/lib/protocol.ts:92-111 | `{type: "X", index: 0, payload: ""}` parses as DATA while `isDataFrame` rejects it |
| Generator.ChunkData | src/lib/protocol.ts:43-49 | the chunks joined give back `data`; there are none exactly when `data` is empty; every chunk is non-empty and at most `chunkSize` long, and all but the last are exactly `chunkSize` long |
| Generator.ChunksFromJoin | src/lib/protocol.ts:45-46 | the chunks pushed from offset `start` on join to the rest of `data` from `start` |
| Generator.ChunksFromLengths | src/lib/protocol.ts:45-46 | the chunks pushed from offset `start` on are non-empty, at most `chunkSize` long, and all full except the last |
| Generator.ChunksFromCount | src/lib/protocol.ts:45-46 | from offset `start` the loop pushes ceil((length - start) / chunkSize) chunks |
| Generator.ChunkCount | src/lib/protocol.ts:43-49 | `chunkData` yields ceil(length / chunkSize) chunks |
| Generator.ChunksFromDrop | src/lib/protocol.ts:45-46 | chunk `j` from offset `start` is the first chunk pushed once the counter has advanced `j` chunk sizes past `start` |
| Generator.ChunksFromAt | src/lib/protocol.ts:45-46 | chunk `j` from offset `start` is the slice beginning `j` chunk sizes after `start` |
| Generator.ChunkAt | src/lib/protocol.ts:43-49 | chunk `j` is `data.slice(j * chunkSize, j * chunkSize + chunkSize)` |
| Generator.HelloWorldChunks | src/lib/protocol.ts:43-49 | `"hello world"` cut by 4 is `"hell"`, `"o wo"`, `"rld"` |
| Generator.GenerateFrames | src/lib/protocol.ts:51-75 | the stream is START (the chunk count, the checksum of the whole payload, the algorithm), then DATA frame `i` with chunk `i` for every chunk in order, then END with the same checksum and count |
| Generator.LayOut | src/lib/protocol.ts:59-72 | the push loop yields `|chunks| + 2` frames: START first, DATA `i` at position `i + 1`, END last |
| Generator.StreamParses | src/lib/protocol.ts:51-100 | in a stream laid out over `data`, the first record parses as START, the last as END, every one between as DATA, and the DATA payloads joined in order give back `data` |

## Left out

- The reassembly state (`ReaderState`, src/lib/types.ts:33-42): these files declare its fields but define no operation on it, so there is nothing to model.
- `GeneratorConfig` (src/lib/types.ts:25-31): a plain record of `generateFrames` arguments plus `intervalMs`, a display timing used by no modelled code.
- JSON text: serialising and parsing are abstracted to the object they carry (`Record`, `Wire`). Escaping, whitespace and key order are not modelled.
- UTF-8 encoding (`TextEncoder`) and the SHA-256 compression function (`crypto.subtle.digest`) are platform code. Both are the parameter `digest`; only the hex rendering of its result is modelled.
- `async` and `Promise`: `sha256`, `computeChecksum` and `generateFrames` are modelled by the values their promises resolve to.
- Numbers: `index` and `totalFrames` are non-negative integers sent as JSON numbers. Doubles beyond 2^53, `NaN`, non-integer chunk sizes, and negative chunk sizes with non-empty data are not modelled.
- Generator.ChunkData: requires `chunkSize > 0` unless `data` is empty, because with non-empty data and `chunkSize <= 0` the source loop never terminates.
- Property lookup through the prototype chain (`in` and `obj.key` on inherited names such as `__proto__` or `toString`): the model looks at own keys only.
- CrcRegister.BuildTable: the table-driven update is not proved equal to a bit-at-a-time CRC (eight reflected shifts of the register XOR the byte). The table is defined by the shifts, but the linearity argument is not carried out; `Checksum.Crc32OfA` checks one published value instead.
- The `is…Frame` predicates take a typed frame in the source; the model applies them to any record, which includes every typed frame.
