/** The shared vocabulary of the framing layer: the payload kinds, the two
    checksum algorithms and the three typed frames. */
module Types {
  import opened JsText

  /** `'text' | 'binary' | 'json'`. */
  datatype DataType = Text | Binary | Json

  /** `'crc32' | 'sha256'`. */
  datatype ChecksumAlgo = Crc32 | Sha256

  /** The three frame interfaces. A START frame announces the transfer, one
      DATA frame carries each chunk, and an END frame repeats the count and
      the checksum. `totalFrames` counts DATA frames only. */
  datatype Frame =
    | Start(dataType: DataType, totalFrames: nat, checksum: JsString, checksumAlgo: ChecksumAlgo)
    | Data(index: nat, payload: JsString)
    | End(checksum: JsString, totalFrames: nat)
}
