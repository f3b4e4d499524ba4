/**
  The export file: magic, header length, header JSON, ciphertext, config length, config JSON. The
  length of the ciphertext is not stored; import finds the config section by scanning backwards.
 */
module Bundle {
  import opened Text

  const MAGIC: Bytes := ['S', 'D', 'B', '\U{1}']
  const MAX_CONFIG := 1_000_000
  const TWO_TO_THE_32 := 0x1_0000_0000

  /** `(n as u32).to_le_bytes()`. */
  function ToLe(n: nat): (b: Bytes)
    ensures |b| == 4
  {
    [(n % 256) as char, (n / 256 % 256) as char, (n / 65536 % 256) as char, (n / 16777216 % 256) as char]
  }

  /** `u32::from_le_bytes`. */
  function FromLe(b: Bytes): nat
    requires |b| == 4
  {
    b[0] as int + 256 * b[1] as int + 65536 * b[2] as int + 16777216 * b[3] as int
  }

  lemma LeRoundTrip(n: nat)
    requires n < TWO_TO_THE_32
    ensures FromLe(ToLe(n)) == n
  {
    var a, b, c := n / 256, n / 65536, n / 16777216;
    assert b == a / 256 && c == b / 256 && c < 256;
    assert n == n % 256 + 256 * a && a == a % 256 + 256 * b && b == b % 256 + 256 * c;
  }

  /** The file written by export. */
  function Packed(header: Bytes, cipher: Bytes, config: Bytes): Bytes {
    MAGIC + ToLe(|header|) + header + cipher + ToLe(|config|) + config
  }

  /** The offset's four bytes announce exactly the bytes after them, and those parse. */
  function Accepts<C>(bundle: Bytes, offset: nat, parseConfig: Bytes -> Option<C>): Option<C>
    requires offset + 4 <= |bundle|
  {
    var len := FromLe(bundle[offset..offset + 4]);
    if offset + 4 + len == |bundle| && len < MAX_CONFIG then parseConfig(bundle[offset + 4..]) else None
  }

  /** The greatest accepted offset below `hi` and not below `lo`. */
  function Scan<C>(bundle: Bytes, lo: nat, hi: nat, parseConfig: Bytes -> Option<C>): (r: Option<(nat, C)>)
    requires lo <= hi ==> hi + 4 <= |bundle|
    ensures r.Some? ==> lo <= r.value.0 < hi && Accepts(bundle, r.value.0, parseConfig) == Some(r.value.1)
    ensures r.Some? ==> forall o :: r.value.0 < o < hi ==> Accepts(bundle, o, parseConfig).None?
    ensures r.None? ==> forall o :: lo <= o < hi ==> Accepts(bundle, o, parseConfig).None?
    decreases hi - lo
  {
    if hi <= lo then None
    else
      match Accepts(bundle, hi - 1, parseConfig)
      case Some(c) => Some((hi - 1, c))
      case None => Scan(bundle, lo, hi - 1, parseConfig)
  }

  datatype Unpacked<+H, +C> =
    | BadMagic
    | TruncatedHeader
    | BadHeader
    | Truncated
    | Sections(headerJson: Bytes, header: H, encrypted: Bytes, config: Option<C>)

  /** What import makes of a file before decrypting; a missing config later becomes the default. */
  function Unpack<H, C>(bundle: Bytes, parseHeader: Bytes -> Option<H>, parseConfig: Bytes -> Option<C>)
      : Unpacked<H, C>
  {
    if |bundle| < 8 || bundle[..4] != MAGIC then BadMagic
    else
      var headerLen := FromLe(bundle[4..8]);
      if |bundle| < 8 + headerLen then TruncatedHeader
      else
        var headerJson := bundle[8..8 + headerLen];
        match parseHeader(headerJson)
        case None => BadHeader
        case Some(header) =>
          var start := 8 + headerLen;
          if |bundle| < start + 4 then Truncated
          else
            match Scan(bundle, start, |bundle| - 4, parseConfig)
            case None => Sections(headerJson, header, bundle[start..], None)
            case Some((end, config)) => Sections(headerJson, header, bundle[start..end], Some(config))
  }

  // ---- The program ----

  /** The bundle is assembled piece by piece. */
  method WriteBundle(header: Bytes, cipher: Bytes, config: Bytes) returns (bundle: Bytes)
    ensures bundle == Packed(header, cipher, config)
    ensures bundle[..4] == ['S', 'D', 'B', '\U{1}']
  {
    bundle := [];
    bundle := bundle + MAGIC;
    bundle := bundle + ToLe(|header|);
    bundle := bundle + header;
    bundle := bundle + cipher;
    bundle := bundle + ToLe(|config|);
    bundle := bundle + config;
  }

  /** Import's parsing with its backward scan. */
  method ReadBundle<H, C>(bundle: Bytes, parseHeader: Bytes -> Option<H>, parseConfig: Bytes -> Option<C>)
      returns (r: Unpacked<H, C>)
    ensures r == Unpack(bundle, parseHeader, parseConfig)
  {
    hide FromLe, ToLe;
    if |bundle| < 8 || bundle[..4] != MAGIC {
      return BadMagic;
    }
    var headerLen := FromLe(bundle[4..8]);
    if |bundle| < 8 + headerLen {
      return TruncatedHeader;
    }
    var headerJson := bundle[8..8 + headerLen];
    var header := parseHeader(headerJson);
    if header.None? {
      return BadHeader;
    }
    var start := 8 + headerLen;
    if |bundle| < start + 4 {
      return Truncated;
    }
    var configEnd := |bundle|;
    var config: Option<C> := None;
    var hi := |bundle| - 4;
    while hi > start
      invariant start <= hi <= |bundle| - 4
      invariant config.None? && configEnd == |bundle|
      invariant Scan(bundle, start, hi, parseConfig) == Scan(bundle, start, |bundle| - 4, parseConfig)
    {
      hi := hi - 1;
      var len := FromLe(bundle[hi..hi + 4]);
      if hi + 4 + len == |bundle| && len < MAX_CONFIG {
        var parsed := parseConfig(bundle[hi + 4..]);
        if parsed.Some? {
          config := parsed;
          configEnd := hi;
          break;
        }
      }
    }
    assert configEnd == |bundle| ==> bundle[start..configEnd] == bundle[start..];
    return Sections(headerJson, header.value, bundle[start..configEnd], config);
  }

  // ---- Finding the boundary ----

  /** Printed JSON holds no control characters. */
  predicate NoControls(s: Bytes) {
    forall i :: 0 <= i < |s| ==> s[i] as int >= 0x20
  }

  /** A config byte in the top position makes any candidate length far too large. */
  lemma TopByteRefuses<C>(bundle: Bytes, offset: nat, parseConfig: Bytes -> Option<C>)
    requires offset + 4 <= |bundle| && bundle[offset + 3] as int >= 0x20
    ensures Accepts(bundle, offset, parseConfig).None?
  {
    assert bundle[offset..offset + 4][3] == bundle[offset + 3];
  }

  /** Where the sections of a packed file lie. */
  lemma PackedLayout(header: Bytes, cipher: Bytes, config: Bytes)
    requires |header| < TWO_TO_THE_32
    ensures var b := Packed(header, cipher, config);
            var start := 8 + |header|;
            var end := start + |cipher|;
            && |b| == end + 4 + |config|
            && b[..4] == MAGIC && FromLe(b[4..8]) == |header|
            && b[8..start] == header && b[start..end] == cipher
            && b[end..end + 4] == ToLe(|config|) && b[end + 4..] == config
            && (forall i :: 0 <= i < |config| ==> b[end + 4 + i] == config[i])
  {
    hide ToLe, FromLe;
    var b := Packed(header, cipher, config);
    assert b[4..8] == ToLe(|header|);
    LeRoundTrip(|header|);
  }

  /** Every offset after the true one is refused, so the scan cannot stop too early. */
  lemma LaterOffsetsRefused<C>(header: Bytes, cipher: Bytes, config: Bytes, parseConfig: Bytes -> Option<C>,
                               offset: nat)
    requires |header| < TWO_TO_THE_32 && NoControls(config)
    requires 8 + |header| + |cipher| < offset < |Packed(header, cipher, config)| - 4
    ensures Accepts(Packed(header, cipher, config), offset, parseConfig).None?
  {
    hide ToLe, FromLe, Accepts, Packed;
    PackedLayout(header, cipher, config);
    var end := 8 + |header| + |cipher|;
    var b := Packed(header, cipher, config);
    assert b[offset + 3] == b[end + 4 + (offset - end - 1)];
    assert offset - end - 1 < |config|;
    TopByteRefuses(b, offset, parseConfig);
  }

  lemma TrueOffsetAccepted<C>(header: Bytes, cipher: Bytes, config: Bytes, parseConfig: Bytes -> Option<C>)
    requires |header| < TWO_TO_THE_32 && |config| < MAX_CONFIG
    ensures Accepts(Packed(header, cipher, config), 8 + |header| + |cipher|, parseConfig) == parseConfig(config)
  {
    hide ToLe, FromLe, Packed;
    PackedLayout(header, cipher, config);
    LeRoundTrip(|config|);
  }

  /**
    Export framing is unambiguous exactly for configs of 1 to 999,999 bytes: for every header and
    ciphertext, and every config without control characters that parses, import recovers the sections
    if and only if the config's length lies in that range.
   */
  lemma UnpackRecoversExactly<H, C>(header: Bytes, cipher: Bytes, config: Bytes,
                                    parseHeader: Bytes -> Option<H>, parseConfig: Bytes -> Option<C>)
    requires |header| < TWO_TO_THE_32 && parseHeader(header).Some?
    requires NoControls(config) && parseConfig(config).Some?
    ensures Unpack(Packed(header, cipher, config), parseHeader, parseConfig)
            == Sections(header, parseHeader(header).value, cipher, parseConfig(config))
            <==> 1 <= |config| < 1_000_000
  {
    hide ToLe, FromLe, Packed, Accepts, Scan;
    PackedLayout(header, cipher, config);
    var b := Packed(header, cipher, config);
    var start := 8 + |header|;
    var end := start + |cipher|;
    var found := Scan(b, start, |b| - 4, parseConfig);
    forall o | end < o < |b| - 4
      ensures Accepts(b, o, parseConfig).None?
    {
      LaterOffsetsRefused(header, cipher, config, parseConfig, o);
    }
    if 1 <= |config| < MAX_CONFIG {
      TrueOffsetAccepted(header, cipher, config, parseConfig);
      assert found.Some? && found.value.0 == end;
    } else if found.Some? && found.value.0 == end {
      AcceptedIsShort(b, end, parseConfig);
      assert false;
    }
  }

  lemma AcceptedIsShort<C>(bundle: Bytes, offset: nat, parseConfig: Bytes -> Option<C>)
    requires offset + 4 <= |bundle| && Accepts(bundle, offset, parseConfig).Some?
    ensures |bundle| - offset - 4 < MAX_CONFIG
  {
  }
}
