/** Cache identities of media sources: native path encodings, digest keys, and their persisted form. */
module LoudnessIdentity {
  import opened Octets
  import opened Outcomes

  /** A code unit of a native path: any byte on unix, any 16-bit value on windows. */
  type Unit = u: int | 0 <= u < 0x1_0000
  type Path = seq<Unit>

  datatype Platform = Unix | Windows

  datatype SourceKind = Local | Http

  datatype Location = LocalFile(path: Path) | HttpUrl(url: Bytes)

  datatype Identity = Identity(kind: SourceKind, cacheId: string, localPath: Option<Path>, display: string)

  /** What the model takes from outside: the digest, text decoding and the URL library. */
  datatype Environment = Environment(
    platform: Platform,
    digest: Bytes -> Bytes,
    utf8: Bytes -> Option<Path>,
    lossy: Path -> string,
    origin: Bytes -> string,
    isOrigin: string -> bool)

  datatype PersistedSourceError =
    | UnknownKind
    | MissingLocalPath
    | UnexpectedHttpLocator
    | CacheIdMismatch
    | UnsafeHttpLabel
    | RequestedIdentityMismatch
    | InvalidLocalPathEncoding
    | UnsupportedLocalPathEncoding

  const LOCAL_SOURCE_KIND := "local"
  const HTTP_SOURCE_KIND := "http"
  const CACHE_ID_DOMAIN := "audio-engine-core:loudness-source:v1"
  const DIGEST_MARK := ":sha256:"
  const HEX := "0123456789abcdef"

  const UNIX_MARKER: Byte := 0x55
  const WIDE_MARKER: Byte := 0x57
  const TEXT_MARKER: Byte := 0x53

  /** The paths a platform can name: any bytes on unix, any 16-bit units on windows. */
  predicate NativePath(platform: Platform, path: Path) {
    platform == Windows || forall i :: 0 <= i < |path| ==> path[i] < 256
  }

  // ---------- path encoding ----------

  function NativeMarker(platform: Platform): Byte {
    if platform == Unix then UNIX_MARKER else WIDE_MARKER
  }

  function UnixPath(bytes: Bytes): Path {
    seq(|bytes|, i requires 0 <= i < |bytes| => bytes[i])
  }

  function UnixBytes(path: Path): Bytes
    requires NativePath(Unix, path)
  {
    seq(|path|, i requires 0 <= i < |path| => path[i])
  }

  /** Each unit as two bytes, low byte first. */
  function WideBytes(path: Path): Bytes {
    seq(2 * |path|, i requires 0 <= i < 2 * |path| =>
      if i % 2 == 0 then path[i / 2] % 256 else path[i / 2] / 256)
  }

  function NativeBytes(platform: Platform, path: Path): Bytes
    requires NativePath(platform, path)
  {
    if platform == Unix then UnixBytes(path) else WideBytes(path)
  }

  function EncodedPath(platform: Platform, path: Path): Bytes
    requires NativePath(platform, path)
  {
    [NativeMarker(platform)] + NativeBytes(platform, path)
  }

  method EncodeLocalPath(platform: Platform, path: Path) returns (encoded: Bytes)
    requires NativePath(platform, path)
    ensures encoded == EncodedPath(platform, path)
  {
    encoded := [NativeMarker(platform)];
    if platform == Unix {
      encoded := encoded + UnixBytes(path);
    } else {
      for i := 0 to |path|
        invariant encoded == [WIDE_MARKER] + WideBytes(path)[..2 * i]
      {
        encoded := encoded + [path[i] % 256, path[i] / 256];
      }
    }
  }

  function WideUnit(low: Byte, high: Byte): Unit {
    low + 256 * high
  }

  function WideUnits(bytes: Bytes): Path {
    seq(|bytes| / 2, i requires 0 <= i < |bytes| / 2 => WideUnit(bytes[2 * i], bytes[2 * i + 1]))
  }

  function DecodeText(env: Environment, bytes: Bytes): Result<Path, PersistedSourceError> {
    if env.utf8(bytes).Some? then Ok(env.utf8(bytes).value) else Err(InvalidLocalPathEncoding)
  }

  function DecodeLocalPath(env: Environment, encoded: Bytes): Result<Path, PersistedSourceError> {
    if encoded == [] then Err(InvalidLocalPathEncoding)
    else if encoded[0] == TEXT_MARKER then DecodeText(env, encoded[1..])
    else if encoded[0] != NativeMarker(env.platform) then Err(UnsupportedLocalPathEncoding)
    else if env.platform == Unix then Ok(UnixPath(encoded[1..]))
    else if (|encoded| - 1) % 2 != 0 then Err(InvalidLocalPathEncoding)
    else Ok(WideUnits(encoded[1..]))
  }

  lemma WideRoundTrip(path: Path)
    ensures WideUnits(WideBytes(path)) == path
  {
  }

  lemma UnitBytes(low: Byte, high: Byte)
    ensures WideUnit(low, high) % 256 == low && WideUnit(low, high) / 256 == high
  {
  }

  lemma UnitsRoundTrip(bytes: Bytes)
    requires |bytes| % 2 == 0
    ensures WideBytes(WideUnits(bytes)) == bytes
  {
    hide WideUnit;
    forall i | 0 <= i < |bytes| ensures WideBytes(WideUnits(bytes))[i] == bytes[i] {
      var k := i / 2;
      UnitBytes(bytes[2 * k], bytes[2 * k + 1]);
      assert WideUnits(bytes)[k] == WideUnit(bytes[2 * k], bytes[2 * k + 1]);
      assert i == 2 * k + i % 2;
    }
  }

  /** On each platform the units and their bytes determine each other. */
  lemma NativeRoundTrip(platform: Platform, body: Bytes, path: Path)
    requires NativePath(platform, path)
    ensures platform == Unix ==> (UnixPath(body) == path <==> body == NativeBytes(platform, path))
    ensures platform == Windows ==>
      (|body| % 2 == 0 && WideUnits(body) == path <==> body == NativeBytes(platform, path))
  {
    if platform == Unix {
      assert UnixPath(UnixBytes(path)) == path;
      assert UnixBytes(UnixPath(body)) == body;
    } else {
      WideRoundTrip(path);
      if |body| % 2 == 0 {
        UnitsRoundTrip(body);
      }
    }
  }

  /** A native encoding decodes to one path and is decoded from no other; odd wide encodings and foreign
    * markers are errors.
    */
  lemma PathRoundTrip(env: Environment, encoded: Bytes, path: Path)
    requires NativePath(env.platform, path)
    requires encoded != [] && encoded[0] != TEXT_MARKER
    ensures DecodeLocalPath(env, encoded) == Ok(path) <==> encoded == EncodedPath(env.platform, path)
    ensures DecodeLocalPath(env, encoded).Ok? <==>
      encoded[0] == NativeMarker(env.platform) && (env.platform == Unix || |encoded| % 2 == 1)
  {
    hide NativeBytes, WideUnits, UnixPath;
    var body := encoded[1..];
    assert encoded == [encoded[0]] + body;
    NativeRoundTrip(env.platform, body, path);
    assert EncodedPath(env.platform, path)[0] == NativeMarker(env.platform);
    assert EncodedPath(env.platform, path)[1..] == NativeBytes(env.platform, path);
  }

  lemma EncodedPathsDiffer(platform: Platform, a: Path, b: Path)
    requires NativePath(platform, a) && NativePath(platform, b)
    requires EncodedPath(platform, a) == EncodedPath(platform, b)
    ensures a == b
  {
    var env := Environment(platform, (x: Bytes) => x, (x: Bytes) => None, (x: Path) => "", (x: Bytes) => "",
      (x: string) => false);
    PathRoundTrip(env, EncodedPath(platform, a), a);
    PathRoundTrip(env, EncodedPath(platform, a), b);
  }

  // ---------- cache keys ----------

  predicate Ascii(s: string) {
    forall i :: 0 <= i < |s| ==> s[i] < 128 as char
  }

  function AsciiBytes(s: string): (b: Bytes)
    requires Ascii(s)
    ensures |b| == |s|
  {
    seq(|s|, i requires 0 <= i < |s| => s[i] as int)
  }

  function Namespace(kind: SourceKind): (s: string)
    ensures Ascii(s)
  {
    if kind == Local then LOCAL_SOURCE_KIND else HTTP_SOURCE_KIND
  }

  lemma DomainIsAscii()
    ensures Ascii(CACHE_ID_DOMAIN)
  {
  }

  /** The bytes fed to the digest. */
  function Preimage(kind: SourceKind, payload: Bytes): Bytes {
    DomainIsAscii();
    AsciiBytes(CACHE_ID_DOMAIN) + [0] + AsciiBytes(Namespace(kind)) + [0] + payload
  }

  function HexText(bytes: Bytes): string {
    seq(2 * |bytes|, i requires 0 <= i < 2 * |bytes| =>
      HEX[if i % 2 == 0 then bytes[i / 2] / 16 else bytes[i / 2] % 16])
  }

  function CacheId(env: Environment, kind: SourceKind, payload: Bytes): string {
    Namespace(kind) + DIGEST_MARK + HexText(env.digest(Preimage(kind, payload)))
  }

  method CacheKey(env: Environment, kind: SourceKind, payload: Bytes) returns (result: string)
    ensures result == CacheId(env, kind, payload)
  {
    var digest := env.digest(Preimage(kind, payload));
    result := Namespace(kind) + DIGEST_MARK;
    ghost var prefix := result;
    for i := 0 to |digest|
      invariant result == prefix + HexText(digest)[..2 * i]
    {
      result := result + [HEX[digest[i] / 16]];
      result := result + [HEX[digest[i] % 16]];
    }
  }

  predicate HexDigit(c: char) {
    '0' <= c <= '9' || 'a' <= c <= 'f'
  }

  predicate ValidCacheId(kind: SourceKind, value: string) {
    var prefix := Namespace(kind) + DIGEST_MARK;
    && prefix <= value
    && |value| - |prefix| == 64
    && (forall i :: |prefix| <= i < |value| ==> HexDigit(value[i]))
  }

  lemma HexDigitsDiffer(a: int, b: int)
    requires 0 <= a < 16 && 0 <= b < 16
    ensures HexDigit(HEX[a]) && (HEX[a] == HEX[b] <==> a == b)
  {
  }

  lemma HexLength(bytes: Bytes)
    ensures |HexText(bytes)| == 2 * |bytes|
  {
  }

  lemma HexPair(bytes: Bytes, k: nat)
    requires k < |bytes|
    ensures |HexText(bytes)| == 2 * |bytes|
    ensures HexText(bytes)[2 * k] == HEX[bytes[k] / 16] && HexText(bytes)[2 * k + 1] == HEX[bytes[k] % 16]
  {
    EvenAndOdd(k, 2 * k, 2 * k + 1);
  }

  lemma EvenAndOdd(k: nat, even: nat, odd: nat)
    requires even == 2 * k && odd == 2 * k + 1
    ensures even / 2 == k && even % 2 == 0 && odd / 2 == k && odd % 2 == 1
  {
  }

  lemma HexTextDetermines(a: Bytes, b: Bytes)
    requires HexText(a) == HexText(b)
    ensures a == b
  {
    HexLength(a);
    HexLength(b);
    hide HexText;
    forall i | 0 <= i < |a| ensures a[i] == b[i] {
      HexPair(a, i);
      HexPair(b, i);
      HexDigitsDiffer(a[i] / 16, b[i] / 16);
      HexDigitsDiffer(a[i] % 16, b[i] % 16);
    }
  }

  /** The value of a hexadecimal digit. */
  function DigitValue(c: char): int {
    if '0' <= c <= '9' then c as int - '0' as int else if 'a' <= c <= 'f' then c as int - 'a' as int + 10 else -1
  }

  lemma DigitReadsBack(v: int)
    requires 0 <= v < 16
    ensures DigitValue(HEX[v]) == v
  {
  }

  /** Two digits a byte, the high one first, in the order of the bytes. */
  lemma HexReadsBack(bytes: Bytes, k: nat)
    requires k < |bytes|
    ensures |HexText(bytes)| == 2 * |bytes|
    ensures 16 * DigitValue(HexText(bytes)[2 * k]) + DigitValue(HexText(bytes)[2 * k + 1]) == bytes[k]
  {
    HexPair(bytes, k);
    DigitReadsBack(bytes[k] / 16);
    DigitReadsBack(bytes[k] % 16);
    hide HexText, DigitValue;
  }

  /** A key is its namespace, the digest's mark, and the digest in hexadecimal. */
  lemma KeyText(env: Environment, kind: SourceKind, payload: Bytes)
    ensures var key, front := CacheId(env, kind, payload), if kind == Local then "local:sha256:" else "http:sha256:";
      front <= key && key[|front|..] == HexText(env.digest(Preimage(kind, payload)))
  {
    hide HexText, Preimage;
    var front := Namespace(kind) + DIGEST_MARK;
    assert front == if kind == Local then "local:sha256:" else "http:sha256:";
    assert CacheId(env, kind, payload) == front + HexText(env.digest(Preimage(kind, payload)));
  }

  /** The digest is fed the domain, a zero, the namespace, a zero and the payload. */
  lemma PreimageParts(kind: SourceKind, payload: Bytes)
    ensures var p, space := Preimage(kind, payload), if kind == Local then "local" else "http";
      var d, s := |CACHE_ID_DOMAIN|, |space|;
      && |p| == d + 1 + s + 1 + |payload| && p[d] == 0 && p[d + 1 + s] == 0
      && (forall k :: 0 <= k < d ==> p[k] == CACHE_ID_DOMAIN[k] as int)
      && (forall k :: 0 <= k < s ==> p[d + 1 + k] == space[k] as int)
      && p[d + 1 + s + 1..] == payload
  {
    var domain, space := AsciiBytes(CACHE_ID_DOMAIN), AsciiBytes(Namespace(kind));
    assert Preimage(kind, payload) == domain + [0] + space + [0] + payload;
  }

  lemma DigitSpells(c: char)
    requires HexDigit(c)
    ensures 0 <= DigitValue(c) < 16 && HEX[DigitValue(c)] == c
  {
  }

  /** A text is valid exactly when it is a namespace, the mark and some digest of 32 bytes in hexadecimal. */
  lemma ValidExactly(kind: SourceKind, value: string)
    ensures ValidCacheId(kind, value)
      <==> exists digest: Bytes :: |digest| == 32 && value == Namespace(kind) + DIGEST_MARK + HexText(digest)
  {
    hide ValidCacheId, HexText, Namespace;
    var prefix := Namespace(kind) + DIGEST_MARK;
    if ValidCacheId(kind, value) {
      var digest := ValidDigest(kind, value);
    }
    if digest: Bytes :| |digest| == 32 && value == prefix + HexText(digest) {
      DigestValid(kind, value, digest);
    }
  }

  lemma ValidDigest(kind: SourceKind, value: string) returns (digest: Bytes)
    requires ValidCacheId(kind, value)
    ensures |digest| == 32 && value == Namespace(kind) + DIGEST_MARK + HexText(digest)
  {
    hide HexText, Namespace, HexDigit;
    var prefix := Namespace(kind) + DIGEST_MARK;
    var digits := value[|prefix|..];
    digest := SpelledDigest(digits);
    assert value == prefix + digits;
  }

  lemma DigestValid(kind: SourceKind, value: string, digest: Bytes)
    requires |digest| == 32 && value == Namespace(kind) + DIGEST_MARK + HexText(digest)
    ensures ValidCacheId(kind, value)
  {
    HexTextDigits(digest);
    HexLength(digest);
    hide HexText, Namespace, HexDigit;
    var prefix := Namespace(kind) + DIGEST_MARK;
    forall i | |prefix| <= i < |value| ensures HexDigit(value[i]) {
      assert value[i] == HexText(digest)[i - |prefix|];
    }
  }

  lemma PairSpells(high: char, low: char)
    requires HexDigit(high) && HexDigit(low)
    ensures var b := 16 * DigitValue(high) + DigitValue(low);
      0 <= b < 256 && HEX[b / 16] == high && HEX[b % 16] == low
  {
    DigitSpells(high);
    DigitSpells(low);
    hide HexDigit, DigitValue;
    Nibbles(DigitValue(high), DigitValue(low));
  }

  lemma Nibbles(high: int, low: int)
    requires 0 <= high < 16 && 0 <= low < 16
    ensures (16 * high + low) / 16 == high && (16 * high + low) % 16 == low
  {
  }

  ghost function PairValue(digits: string, k: nat): int
    requires 2 * k + 1 < |digits|
  {
    16 * DigitValue(digits[2 * k]) + DigitValue(digits[2 * k + 1])
  }

  /** Pairs of digits spell bytes. */
  lemma SpelledDigest(digits: string) returns (digest: Bytes)
    requires |digits| % 2 == 0 && forall i :: 0 <= i < |digits| ==> HexDigit(digits[i])
    ensures 2 * |digest| == |digits| && HexText(digest) == digits
  {
    var n := |digits| / 2;
    forall k | 0 <= k < n
      ensures 0 <= PairValue(digits, k) < 256
      ensures HEX[PairValue(digits, k) / 16] == digits[2 * k] && HEX[PairValue(digits, k) % 16] == digits[2 * k + 1]
    {
      PairSpells(digits[2 * k], digits[2 * k + 1]);
    }
    hide HexDigit, PairValue, HexText;
    digest := seq(n, k requires 0 <= k < n => PairValue(digits, k));
    assert forall k :: 0 <= k < n ==> digest[k] == PairValue(digits, k);
    HexTextIs(digest, digits);
  }

  lemma HexTextIs(bytes: Bytes, text: string)
    requires |text| == 2 * |bytes|
    requires forall k :: 0 <= k < |bytes| ==> text[2 * k] == HEX[bytes[k] / 16] && text[2 * k + 1] == HEX[bytes[k] % 16]
    ensures HexText(bytes) == text
  {
    hide HexText;
    assert |HexText(bytes)| == |text| by {
      HexLength(bytes);
    }
    forall i | 0 <= i < |text| ensures HexText(bytes)[i] == text[i] {
      var k := i / 2;
      HexPair(bytes, k);
      assert text[2 * k] == HEX[bytes[k] / 16];
      assert i == 2 * k || i == 2 * k + 1;
    }
  }

  /** Which locators are refused as another platform's, and which as no encoding at all. */
  lemma DecodingErrors(env: Environment, encoded: Bytes)
    ensures var r, native := DecodeLocalPath(env, encoded), if env.platform == Unix then 'U' as int else 'W' as int;
      && (r == Err(UnsupportedLocalPathEncoding) <==>
            encoded != [] && encoded[0] != 'S' as int && encoded[0] != native)
      && (r == Err(InvalidLocalPathEncoding) <==> (
            || encoded == [] || (encoded[0] == 'S' as int && env.utf8(encoded[1..]).None?)
            || (env.platform == Windows && encoded[0] == native && |encoded| % 2 == 0)))
  {
  }

  /** A remote row is accepted exactly without a locator, under the hexadecimal key of some digest, and labelled with an
    * origin; then it keeps key and label. A label that is no origin is the last thing to be refused.
    */
  lemma RemoteRowAccepted(env: Environment, id: string, locator: Option<Bytes>, display: string)
    ensures var r := FromPersisted(env, id, HTTP_SOURCE_KIND, locator, display);
      var keyed := exists digest: Bytes :: |digest| == 32 && id == Namespace(Http) + DIGEST_MARK + HexText(digest);
      && (r.Ok? <==> locator.None? && keyed && env.isOrigin(display))
      && (r.Ok? ==> r.value == Identity(Http, id, None, display))
      && (r == Err(UnsafeHttpLabel) <==> locator.None? && keyed && !env.isOrigin(display))
      && (r == Err(CacheIdMismatch) <==> locator.None? && !keyed)
  {
    ValidExactly(Http, id);
    hide ValidCacheId, HexText;
  }

  /** A key always passes the validity test of its own namespace and never that of the other. */
  lemma KeysAreNamespaced(env: Environment, kind: SourceKind, payload: Bytes, other: SourceKind)
    requires WellBehaved(env)
    ensures ValidCacheId(other, CacheId(env, kind, payload)) <==> other == kind
  {
    var text := HexText(env.digest(Preimage(kind, payload)));
    HexTextDigits(env.digest(Preimage(kind, payload)));
    assert |text| == 64;
    hide HexText, Preimage, HexDigit;
    var prefix, key := Namespace(kind) + DIGEST_MARK, CacheId(env, kind, payload);
    assert key == prefix + text;
    assert key[0] == Namespace(kind)[0];
    if other == kind {
      forall i | |prefix| <= i < |key| ensures HexDigit(key[i]) {
        assert key[i] == text[i - |prefix|];
      }
    } else {
      assert (Namespace(other) + DIGEST_MARK)[0] == Namespace(other)[0];
    }
  }

  lemma HexTextDigits(bytes: Bytes)
    ensures forall k :: 0 <= k < |HexText(bytes)| ==> HexDigit(HexText(bytes)[k])
  {
    forall k | 0 <= k < |HexText(bytes)| ensures HexDigit(HexText(bytes)[k]) {
      HexDigitsDiffer(if k % 2 == 0 then bytes[k / 2] / 16 else bytes[k / 2] % 16, 0);
    }
  }

  lemma PreimageDetermines(kind: SourceKind, a: Bytes, b: Bytes)
    requires Preimage(kind, a) == Preimage(kind, b)
    ensures a == b
  {
    var front := AsciiBytes(CACHE_ID_DOMAIN) + [0] + AsciiBytes(Namespace(kind)) + [0];
    assert Preimage(kind, a) == front + a && Preimage(kind, b) == front + b;
    assert a == Preimage(kind, a)[|front|..] && b == Preimage(kind, b)[|front|..];
  }

  lemma KeyDetermines(env: Environment, k: SourceKind, a: Bytes, l: SourceKind, b: Bytes)
    requires CacheId(env, k, a) == CacheId(env, l, b)
    ensures k == l && env.digest(Preimage(k, a)) == env.digest(Preimage(l, b))
  {
    var p, q := env.digest(Preimage(k, a)), env.digest(Preimage(l, b));
    assert CacheId(env, k, a)[0] == Namespace(k)[0];
    assert CacheId(env, l, b)[0] == Namespace(l)[0];
    var front := Namespace(k) + DIGEST_MARK;
    assert CacheId(env, k, a) == front + HexText(p) && CacheId(env, l, b) == front + HexText(q);
    assert HexText(p) == CacheId(env, k, a)[|front|..];
    assert HexText(q) == CacheId(env, l, b)[|front|..];
    HexTextDetermines(p, q);
  }

  // ---------- identities ----------

  /** The digest is 32 bytes long, and every URL's origin is accepted as an origin. */
  ghost predicate WellBehaved(env: Environment) {
    (forall b: Bytes :: |env.digest(b)| == 32) && (forall u: Bytes :: env.isOrigin(env.origin(u)))
  }

  predicate Nameable(platform: Platform, location: Location) {
    location.LocalFile? ==> NativePath(platform, location.path)
  }

  function KindOf(location: Location): SourceKind {
    if location.LocalFile? then Local else Http
  }

  function Payload(platform: Platform, location: Location): Bytes
    requires Nameable(platform, location)
  {
    if location.LocalFile? then EncodedPath(platform, location.path) else location.url
  }

  /** The digest tells the locations of a set apart. */
  ghost predicate CollisionFree(env: Environment, known: set<Location>) {
    forall a, b :: a in known && b in known && Nameable(env.platform, a) && Nameable(env.platform, b) ==>
      (var p, q := Preimage(KindOf(a), Payload(env.platform, a)), Preimage(KindOf(b), Payload(env.platform, b));
       env.digest(p) == env.digest(q) ==> p == q)
  }

  function FromLocation(env: Environment, location: Location): Identity
    requires Nameable(env.platform, location)
  {
    if location.LocalFile? then
      Identity(Local, CacheId(env, Local, EncodedPath(env.platform, location.path)), Some(location.path),
        env.lossy(location.path))
    else
      Identity(Http, CacheId(env, Http, location.url), None, env.origin(location.url))
  }

  /** The text stored in the kind column. */
  function PersistedKind(s: Identity): string {
    Namespace(s.kind)
  }

  function PersistedLocator(platform: Platform, s: Identity): Option<Bytes>
    requires s.localPath.Some? ==> NativePath(platform, s.localPath.value)
  {
    if s.localPath.Some? then Some(EncodedPath(platform, s.localPath.value)) else None
  }

  function FromPersistedLocal(env: Environment, id: string, encoded: Bytes): Result<Identity, PersistedSourceError> {
    var path := DecodeLocalPath(env, encoded);
    if path.Err? then Err(path.error)
    else if id != CacheId(env, Local, encoded) then Err(CacheIdMismatch)
    else Ok(Identity(Local, id, Some(path.value), env.lossy(path.value)))
  }

  function FromPersisted(env: Environment, id: string, kind: string, locator: Option<Bytes>, display: string):
    Result<Identity, PersistedSourceError>
  {
    if kind == LOCAL_SOURCE_KIND then
      if locator.None? then Err(MissingLocalPath) else FromPersistedLocal(env, id, locator.value)
    else if kind == HTTP_SOURCE_KIND then
      if locator.Some? then Err(UnexpectedHttpLocator)
      else if !ValidCacheId(Http, id) then Err(CacheIdMismatch)
      else if !env.isOrigin(display) then Err(UnsafeHttpLabel)
      else Ok(Identity(Http, id, None, display))
    else Err(UnknownKind)
  }

  lemma OriginAccepted(env: Environment, url: Bytes)
    requires WellBehaved(env)
    ensures env.isOrigin(env.origin(url))
  {
  }

  /** A remote identity shows of its URL only the digest and the origin: URLs that agree in both have one identity. */
  lemma RemoteIdentityShows(env: Environment, u: Bytes, v: Bytes)
    requires env.digest(Preimage(Http, u)) == env.digest(Preimage(Http, v)) && env.origin(u) == env.origin(v)
    ensures FromLocation(env, HttpUrl(u)) == FromLocation(env, HttpUrl(v))
    ensures FromLocation(env, HttpUrl(u)).localPath == None && FromLocation(env, HttpUrl(u)).display == env.origin(u)
  {
  }

  /** Every location's identity is restored from its persisted columns. */
  lemma IdentityRoundTrip(env: Environment, location: Location)
    requires WellBehaved(env) && Nameable(env.platform, location)
    ensures var s := FromLocation(env, location);
      FromPersisted(env, s.cacheId, PersistedKind(s), PersistedLocator(env.platform, s), s.display) == Ok(s)
  {
    hide WellBehaved, ValidCacheId, CacheId;
    if location.LocalFile? {
      PathRoundTrip(env, EncodedPath(env.platform, location.path), location.path);
    } else {
      KeysAreNamespaced(env, Http, location.url, Http);
      OriginAccepted(env, location.url);
    }
  }

  /** Two locations have the same key exactly when they are the same location, unless their digests collide. */
  lemma KeysDistinguish(env: Environment, known: set<Location>, a: Location, b: Location)
    requires CollisionFree(env, known) && a in known && b in known
    requires Nameable(env.platform, a) && Nameable(env.platform, b)
    ensures FromLocation(env, a).cacheId == FromLocation(env, b).cacheId <==> a == b
  {
    hide CacheId, Preimage;
    var p, q := Payload(env.platform, a), Payload(env.platform, b);
    if FromLocation(env, a).cacheId == FromLocation(env, b).cacheId {
      KeyDetermines(env, KindOf(a), p, KindOf(b), q);
      PreimageDetermines(KindOf(a), p, q);
      if a.LocalFile? {
        EncodedPathsDiffer(env.platform, a.path, b.path);
      }
    }
  }

  /** A local row is accepted with a native locator exactly when it is the row of the path it names. */
  lemma AcceptedNativeRow(env: Environment, id: string, encoded: Bytes, display: string, path: Path)
    requires NativePath(env.platform, path) && encoded != [] && encoded[0] != TEXT_MARKER
    ensures FromPersisted(env, id, LOCAL_SOURCE_KIND, Some(encoded), display) == Ok(FromLocation(env, LocalFile(path)))
      <==> encoded == EncodedPath(env.platform, path) && id == CacheId(env, Local, encoded)
  {
    hide CacheId;
    PathRoundTrip(env, encoded, path);
  }

  /** A row with the text encoding is accepted exactly when its text decodes and its key is the locator's; it names the
    * path the text spells.
    */
  lemma TextRowAccepted(env: Environment, id: string, text: Bytes, display: string)
    ensures var r := FromPersisted(env, id, LOCAL_SOURCE_KIND, Some([TEXT_MARKER] + text), display);
      && (r.Ok? <==> env.utf8(text).Some? && id == CacheId(env, Local, [TEXT_MARKER] + text))
      && (r.Ok? ==> r.value.kind == Local && r.value.cacheId == id && r.value.localPath == env.utf8(text))
      && (env.utf8(text).None? ==> r == Err(InvalidLocalPathEncoding))
  {
    hide CacheId;
    assert ([TEXT_MARKER] + text)[1..] == text;
  }

  /** A row with the text encoding is accepted under a key that is the key of the path it names only if two
    * different inputs collide.
    */
  lemma TextRowKeepsForeignKey(env: Environment, id: string, encoded: Bytes, display: string)
    requires encoded != [] && encoded[0] == TEXT_MARKER
    requires FromPersisted(env, id, LOCAL_SOURCE_KIND, Some(encoded), display).Ok?
    requires NativePath(env.platform,
      FromPersisted(env, id, LOCAL_SOURCE_KIND, Some(encoded), display).value.localPath.value)
    ensures var s := FromPersisted(env, id, LOCAL_SOURCE_KIND, Some(encoded), display).value;
      var own := EncodedPath(env.platform, s.localPath.value);
      && encoded != own
      && (s.cacheId == FromLocation(env, LocalFile(s.localPath.value)).cacheId
          <==> env.digest(Preimage(Local, encoded)) == env.digest(Preimage(Local, own)))
  {
    hide CacheId, Preimage;
    var s := FromPersisted(env, id, LOCAL_SOURCE_KIND, Some(encoded), display).value;
    var own := EncodedPath(env.platform, s.localPath.value);
    assert own[0] == NativeMarker(env.platform);
    if s.cacheId == CacheId(env, Local, own) {
      KeyDetermines(env, Local, encoded, Local, own);
    }
    SameDigestSameKey(env, encoded, own);
  }

  lemma SameDigestSameKey(env: Environment, a: Bytes, b: Bytes)
    ensures env.digest(Preimage(Local, a)) == env.digest(Preimage(Local, b)) ==>
      CacheId(env, Local, a) == CacheId(env, Local, b)
  {
  }

  /** A well-behaved environment whose 32-byte digest repeats the last byte of its input. */
  function PlainEnvironment(): Environment {
    Environment(Unix, (b: Bytes) => seq(32, _ => if b == [] then 0 else b[|b| - 1]), (b: Bytes) => Some([]),
      (p: Path) => "", (u: Bytes) => "", (s: string) => true)
  }

  const TEXT_ROW: Bytes := [TEXT_MARKER]

  /** A concrete text row: it names the empty path, is accepted, and does not carry that path's key. */
  lemma TextRowExample()
    ensures WellBehaved(PlainEnvironment())
    ensures var env := PlainEnvironment();
      var id := CacheId(env, Local, TEXT_ROW);
      && FromPersisted(env, id, LOCAL_SOURCE_KIND, Some(TEXT_ROW), "") == Ok(Identity(Local, id, Some([]), ""))
      && env.digest(Preimage(Local, TEXT_ROW)) != env.digest(Preimage(Local, EncodedPath(Unix, [])))
      && id != FromLocation(env, LocalFile([])).cacheId
  {
    PlainDigestsDiffer();
    hide CacheId, Preimage;
    var env := PlainEnvironment();
    TextRowKeepsForeignKey(env, CacheId(env, Local, TEXT_ROW), TEXT_ROW, "");
  }

  lemma PlainDigestsDiffer()
    ensures var env := PlainEnvironment();
      env.digest(Preimage(Local, TEXT_ROW)) != env.digest(Preimage(Local, EncodedPath(Unix, [])))
  {
    hide Preimage;
    var env, own := PlainEnvironment(), EncodedPath(Unix, []);
    assert own == [UNIX_MARKER];
    LastOfPreimage(TEXT_ROW);
    LastOfPreimage(own);
    assert env.digest(Preimage(Local, TEXT_ROW))[0] == TEXT_MARKER;
    assert env.digest(Preimage(Local, own))[0] == UNIX_MARKER;
  }

  lemma LastOfPreimage(payload: Bytes)
    requires payload != []
    ensures var p := Preimage(Local, payload); p != [] && p[|p| - 1] == payload[|payload| - 1]
  {
  }
}
