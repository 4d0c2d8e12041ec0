/** The magic byte that prefixes every record: encryption, content type and
    content encoding, with their HTTP texts. Go's `int` fields only ever hold
    values that fit a byte, so they are `bv8` here. */
module MagicBytes {
  const CONTENT_ENCODING_NONE: bv8 := 0
  const CONTENT_ENCODING_ZSTD: bv8 := 1
  const CONTENT_ENCODING_ZLIB: bv8 := 2

  const CONTENT_TYPE_UNKNOWN: bv8 := 0
  const CONTENT_TYPE_JSON: bv8 := 1
  const CONTENT_TYPE_PROTOBUF: bv8 := 2

  const CONTENT_TYPE_HEADER := "Content-Type"
  const CONTENT_ENCODING_HEADER := "Content-Encoding"

  datatype MagicByte = MagicByte(cev: bv8, ctv: bv8, encryption: bv8) {
    /** Every field fits the bits the packed byte reserves for it. */
    predicate InRange() {
      cev <= 3 && ctv <= 7 && encryption <= 3
    }

    /** Both codes have a text of their own. */
    predicate Named() {
      cev <= CONTENT_ENCODING_ZLIB && ctv <= CONTENT_TYPE_PROTOBUF
    }

    function Get(): bv8 {
      (encryption << 5) | (ctv << 2) | cev
    }

    function ContentType(): string {
      if ctv == CONTENT_TYPE_UNKNOWN then "application/octet-stream"
      else if ctv == CONTENT_TYPE_JSON then "application/json"
      else if ctv == CONTENT_TYPE_PROTOBUF then "application/x-protobuf"
      else ""
    }

    function ContentEncoding(): string {
      if cev == CONTENT_ENCODING_ZSTD then "zstd"
      else if cev == CONTENT_ENCODING_ZLIB then "zlib"
      else ""
    }
  }

  /** Unpacks a stored byte; the reserved top bit is dropped. */
  function NewFrom(b: bv8): MagicByte {
    MagicByte(b & 3, (b >> 2) & 7, (b >> 5) & 3)
  }

  /** Texts that are not in the table read as code 0. */
  function ContentEncodingCode(text: string): bv8 {
    if text == "zstd" then CONTENT_ENCODING_ZSTD
    else if text == "zlib" then CONTENT_ENCODING_ZLIB
    else CONTENT_ENCODING_NONE
  }

  function ContentTypeCode(text: string): bv8 {
    if text in ["application/json", "json"] then CONTENT_TYPE_JSON
    else if text in ["application/x-protobuf", "application/vnd.google.protobuf", "protobuf"] then CONTENT_TYPE_PROTOBUF
    else CONTENT_TYPE_UNKNOWN
  }

  function New(contentEncoding: string, contentType: string, encryption: bv8): (m: MagicByte)
    ensures m.Named() && m.encryption == encryption
  {
    MagicByte(ContentEncodingCode(contentEncoding), ContentTypeCode(contentType), encryption)
  }

  /** The header fields after the content headers are set; an encoding with no
      text leaves the field alone. */
  function SetContentHeaders(m: MagicByte, h: map<string, string>): map<string, string> {
    var withType := h[CONTENT_TYPE_HEADER := m.ContentType()];
    if m.ContentEncoding() == "" then withType
    else withType[CONTENT_ENCODING_HEADER := m.ContentEncoding()]
  }

  /** A header field as `Header.Get` reads it: the empty string when absent. */
  function HeaderGet(h: map<string, string>, name: string): string {
    if name in h then h[name] else ""
  }

  /** The magic byte a client, or the PUT handler, reads off a set of headers. */
  function FromHeaders(h: map<string, string>): MagicByte {
    New(HeaderGet(h, CONTENT_ENCODING_HEADER), HeaderGet(h, CONTENT_TYPE_HEADER), 0)
  }

  lemma ParsePacked(m: MagicByte)
    requires m.InRange()
    ensures NewFrom(m.Get()) == m
    ensures m.Get() & 0x80 == 0
  {
  }

  /** Unpacking and repacking a stored byte gives it back exactly when its
      reserved bit is clear. */
  lemma RepackParsed(b: bv8)
    ensures NewFrom(b).InRange()
    ensures NewFrom(b).Get() == b <==> b & 0x80 == 0
  {
  }

  /** The header texts name the codes exactly when both codes are in the tables:
      content types 3 to 7 and encoding 3 are written as texts that read back as 0. */
  lemma HeadersRoundTrip(m: MagicByte)
    ensures FromHeaders(SetContentHeaders(m, map[])) == MagicByte(m.cev, m.ctv, 0) <==> m.Named()
  {
  }
}
