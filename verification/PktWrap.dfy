/** The two packet envelopes: authentication packets and meter packets around a sealed payload. */
module PktWrap {
  import opened Wire
  import opened Wrappers
  import opened Fips197
  import opened Strings
  import opened IoPort
  import opened Seal
  import opened SealPorts

  datatype Uuid = Uuid(msb: bv64, lsb: bv64)

  datatype AuthInfo = AuthInfo(tenantid: Uuid, tenantkey: Key, sessionid: bv32, hostid: Uuid, sessionkey: Key, serial: bv32)

  /** The local clock, the leftover contents of the block buffer, and the random bytes. */
  datatype Ambient = Ambient(now: bv32, stale: Block, noise: seq<bv8>)

  const AUTH_TAG: seq<bv8> := [0x6f, 0x36, 0x61, 0x31]    // o6a1
  const METER_TAG: seq<bv8> := [0x6f, 0x36, 0x6d, 0x31]   // o6m1

  function EncUuid(u: Uuid): (s: seq<bv8>)
    ensures |s| == 16
  {
    EncU64(u.msb) + EncU64(u.lsb)
  }

  /** A failed read yields the nil uuid. */
  function TakeUuid(s: seq<bv8>): (Uuid, seq<bv8>) {
    if |s| >= 16 then (Uuid(DecU64(s[..8]), DecU64(s[8..16])), s[16..]) else (Uuid(0, 0), s)
  }

  // ---- Authentication packets ----

  function AuthPayload(a: AuthInfo, pad: seq<bv8>): seq<bv8> {
    EncU32(a.sessionid) + EncUuid(a.hostid) + a.sessionkey + pad
  }

  function AuthPacket(a: AuthInfo, serial: bv32, pad: seq<bv8>, env: Ambient): seq<bv8>
    requires |pad| == 64 && |env.noise| >= 16
  {
    AUTH_TAG + EncUuid(a.tenantid) + EncU32(serial) + Sealed(a.tenantkey, AuthPayload(a, pad), env.now, serial, env.noise)
  }

  /** The fields of the payload, if it is long enough. */
  function ReadAuthPayload(p: seq<bv8>, tenantid: Uuid, key: Key, serial: bv32): Option<AuthInfo> {
    var (sessionid, p1) := TakeU32(p);
    var (hostid, p2) := TakeUuid(p1);
    if |p2| >= 32 then Some(AuthInfo(tenantid, key, sessionid, hostid, p2[..32], serial)) else None
  }

  /** blank is what the fresh buffer for the payload happens to hold: a port that nothing was
      written to reads its buffer, so that is what an empty payload is read from. */
  function OpenAuth(s: seq<bv8>, resolve: (Uuid, bv32) -> Option<Key>, env: Ambient, blank: seq<bv8>): Option<AuthInfo> {
    if |s| < 4 || s[..4] != AUTH_TAG then None
    else
      var (tenantid, s1) := TakeUuid(s[4..]);
      var (serial, s2) := TakeU32(s1);
      match resolve(tenantid, serial)
      case None => None
      case Some(key) =>
        match Open(key, env.stale, s2, env.now, serial)
        case Opened(p) => ReadAuthPayload(if p == [] then blank else p, tenantid, key, serial)
        case _ => None
  }

  lemma UuidReads(u: Uuid, rest: seq<bv8>)
    ensures TakeUuid(EncUuid(u) + rest) == (u, rest)
  {
    hide EncU64, DecU64;
    var s := EncUuid(u) + rest;
    assert s[..8] == EncU64(u.msb) && s[8..16] == EncU64(u.lsb) && s[16..] == rest;
    U64RoundTrip(u.msb);
    U64RoundTrip(u.lsb);
  }

  lemma U32Reads(x: bv32, rest: seq<bv8>)
    ensures TakeU32(EncU32(x) + rest) == (x, rest)
  {
    hide EncU32, DecU32;
    var s := EncU32(x) + rest;
    assert s[..4] == EncU32(x) && s[4..] == rest;
    U32RoundTrip(x);
  }

  lemma AuthPayloadReads(a: AuthInfo, pad: seq<bv8>)
    ensures ReadAuthPayload(AuthPayload(a, pad), a.tenantid, a.tenantkey, a.serial) == Some(a)
  {
    hide EncU32, EncUuid, TakeU32, TakeUuid;
    var p2 := a.sessionkey + pad;
    assert AuthPayload(a, pad) == EncU32(a.sessionid) + (EncUuid(a.hostid) + p2);
    U32Reads(a.sessionid, EncUuid(a.hostid) + p2);
    UuidReads(a.hostid, p2);
    assert p2[..32] == a.sessionkey;
  }

  /** A receiver that finds the tenant's key recovers every field, and the serial number of the
      packet, exactly when its clock is within 180 seconds of the sender's. */
  lemma AuthRoundTrip(a: AuthInfo, serial: bv32, pad: seq<bv8>, env: Ambient, env': Ambient,
                      resolve: (Uuid, bv32) -> Option<Key>, rest: seq<bv8>, blank: seq<bv8>)
    requires |pad| == 64 && |env.noise| >= 16
    requires resolve(a.tenantid, serial) == Some(a.tenantkey)
    ensures OpenAuth(AuthPacket(a, serial, pad, env) + rest, resolve, env', blank)
         == if -180 <= (env.now as int) - (env'.now as int) <= 180 then Some(a.(serial := serial)) else None
  {
    hide EncU32, EncUuid, TakeU32, TakeUuid, Sealed, Open, ReadAuthPayload, AuthPayload;
    AuthPayloadSize(a, pad);
    var sealed := Sealed(a.tenantkey, AuthPayload(a, pad), env.now, serial, env.noise);
    var s := AuthPacket(a, serial, pad, env) + rest;
    assert s == AUTH_TAG + (EncUuid(a.tenantid) + (EncU32(serial) + (sealed + rest)));
    UuidReads(a.tenantid, EncU32(serial) + (sealed + rest));
    U32Reads(serial, sealed + rest);
    OpenSealed(a.tenantkey, AuthPayload(a, pad), env.now, serial, env.noise, env'.stale, rest, env'.now, serial);
    var b := a.(serial := serial);
    AuthPayloadReads(b, pad);
    assert AuthPayload(b, pad) == AuthPayload(a, pad) by { SamePayload(a, b, pad); }
  }

  lemma AuthPayloadSize(a: AuthInfo, pad: seq<bv8>)
    requires |pad| == 64
    ensures |AuthPayload(a, pad)| == 116
  {
  }

  lemma SamePayload(a: AuthInfo, b: AuthInfo, pad: seq<bv8>)
    requires b == a.(serial := b.serial)
    ensures AuthPayload(a, pad) == AuthPayload(b, pad)
  {
  }

  // ---- Meter packets ----

  function MeterPacket(sessid: bv32, serial: bv32, key: Key, zipped: seq<bv8>, env: Ambient): seq<bv8>
    requires |env.noise| >= 16 && |zipped| < U64
  {
    METER_TAG + EncU32(sessid) + EncU32(serial) + Sealed(key, zipped, env.now, serial, env.noise)
  }

  /** The buffers that zlib writes to are this long, and do not grow. */
  const ROOM := 2048

  /** compress_data and decompress_data around the whole output of zlib, if there is any. */
  function Through(library: seq<bv8> -> Option<seq<bv8>>, data: seq<bv8>): (r: Option<seq<bv8>>)
    ensures r.Some? ==> |r.value| <= ROOM
  {
    if data == [] then None
    else
      match library(data)
      case None => None
      case Some(out) => if |out| <= ROOM then Some(out) else None
  }

  datatype Failure = ReadError | TypeError | KeyError | DecryptError | DecompressError

  datatype Unwrapped<T> = Ok(value: T) | Err(failure: Failure)

  /** blank is what the fresh buffer for the decrypted data happens to hold. */
  function OpenMeter(s: seq<bv8>, networkid: bv32, resolve: (bv32, bv32, bv32) -> Option<Key>,
                     unzip: seq<bv8> -> Option<seq<bv8>>, env: Ambient, blank: seq<bv8>): Unwrapped<seq<bv8>> {
    if |s| < 4 then Err(ReadError)
    else if s[..4] != METER_TAG then Err(TypeError)
    else
      var (sessid, s1) := TakeU32(s[4..]);
      var (serial, s2) := TakeU32(s1);
      match resolve(networkid, sessid, serial)
      case None => Err(KeyError)
      case Some(key) => Unpacked(Open(key, env.stale, s2, env.now, serial), unzip, blank)
  }

  function Unpacked(o: Opened, unzip: seq<bv8> -> Option<seq<bv8>>, blank: seq<bv8>): Unwrapped<seq<bv8>> {
    match o
    case Opened(p) =>
      (match Through(unzip, if p == [] then blank else p)
       case None => Err(DecompressError)
       case Some(data) => Ok(data))
    case _ => Err(DecryptError)
  }

  /** Meter data that zlib can compress into the room, and whose compressed form it undoes, get to
      the receiver exactly when the clocks agree and the data fit the room themselves. A gzip
      stream is at least 18 bytes long. */
  lemma MeterRoundTrip(sessid: bv32, serial: bv32, key: Key, data: seq<bv8>, env: Ambient, env': Ambient, networkid: bv32,
                       resolve: (bv32, bv32, bv32) -> Option<Key>, zip: seq<bv8> -> Option<seq<bv8>>,
                       unzip: seq<bv8> -> Option<seq<bv8>>, rest: seq<bv8>, blank: seq<bv8>)
    requires |env.noise| >= 16 && Through(zip, data).Some? && |zip(data).value| >= 18 && unzip(zip(data).value) == Some(data)
    requires resolve(networkid, sessid, serial) == Some(key)
    ensures OpenMeter(MeterPacket(sessid, serial, key, zip(data).value, env) + rest, networkid, resolve, unzip, env', blank)
         == if -180 <= (env.now as int) - (env'.now as int) <= 180 then
              if |data| <= 2048 then Ok(data) else Err(DecompressError)
            else Err(DecryptError)
  {
    hide OpenMeter, MeterPacket;
    PacketOpens(sessid, serial, key, zip(data).value, data, env, env', networkid, resolve, unzip, rest, blank);
  }

  lemma PacketOpens(sessid: bv32, serial: bv32, key: Key, zipped: seq<bv8>, data: seq<bv8>, env: Ambient, env': Ambient, networkid: bv32,
                    resolve: (bv32, bv32, bv32) -> Option<Key>, unzip: seq<bv8> -> Option<seq<bv8>>, rest: seq<bv8>, blank: seq<bv8>)
    requires |env.noise| >= 16 && 18 <= |zipped| <= ROOM && unzip(zipped) == Some(data) && data != []
    requires resolve(networkid, sessid, serial) == Some(key)
    ensures OpenMeter(MeterPacket(sessid, serial, key, zipped, env) + rest, networkid, resolve, unzip, env', blank)
         == if -180 <= (env.now as int) - (env'.now as int) <= 180 then
              if |data| <= 2048 then Ok(data) else Err(DecompressError)
            else Err(DecryptError)
  {
    hide EncU32, Sealed, Open, Unpacked, OpenMeter;
    var sealed := Sealed(key, zipped, env.now, serial, env.noise);
    Regrouped(METER_TAG, EncU32(sessid), EncU32(serial), sealed, rest);
    HeaderReads(sessid, serial, key, sealed + rest, networkid, resolve, unzip, env', blank);
    UnpackedAfter(sealed + rest, serial, key, zipped, data, env, env', unzip, rest, blank);
  }

  lemma UnpackedAfter(s: seq<bv8>, serial: bv32, key: Key, zipped: seq<bv8>, data: seq<bv8>, env: Ambient, env': Ambient,
                      unzip: seq<bv8> -> Option<seq<bv8>>, rest: seq<bv8>, blank: seq<bv8>)
    requires |env.noise| >= 16 && 18 <= |zipped| <= ROOM && unzip(zipped) == Some(data) && data != []
    requires s == Sealed(key, zipped, env.now, serial, env.noise) + rest
    ensures Unpacked(Open(key, env'.stale, s, env'.now, serial), unzip, blank)
         == if -180 <= (env.now as int) - (env'.now as int) <= 180 then
              if |data| <= 2048 then Ok(data) else Err(DecompressError)
            else Err(DecryptError)
  {
    hide Sealed, Open, Unpacked;
    OpenSealed(key, zipped, env.now, serial, env.noise, env'.stale, rest, env'.now, serial);
    UnpackedIs(Open(key, env'.stale, s, env'.now, serial), zipped, data, unzip, blank);
  }

  lemma Regrouped(a: seq<bv8>, b: seq<bv8>, c: seq<bv8>, d: seq<bv8>, e: seq<bv8>)
    ensures (a + b + c + d) + e == a + b + c + (d + e)
  {
  }

  lemma HeaderReads(sessid: bv32, serial: bv32, key: Key, t: seq<bv8>, networkid: bv32, resolve: (bv32, bv32, bv32) -> Option<Key>,
                    unzip: seq<bv8> -> Option<seq<bv8>>, env: Ambient, blank: seq<bv8>)
    requires resolve(networkid, sessid, serial) == Some(key)
    ensures OpenMeter(METER_TAG + EncU32(sessid) + EncU32(serial) + t, networkid, resolve, unzip, env, blank)
         == Unpacked(Open(key, env.stale, t, env.now, serial), unzip, blank)
  {
    hide EncU32, TakeU32, Open, Unpacked;
    var s := METER_TAG + EncU32(sessid) + EncU32(serial) + t;
    assert s[..4] == METER_TAG && s[4..] == EncU32(sessid) + (EncU32(serial) + t);
    U32Reads(sessid, EncU32(serial) + t);
    U32Reads(serial, t);
  }

  lemma UnpackedIs(o: Opened, zipped: seq<bv8>, data: seq<bv8>, unzip: seq<bv8> -> Option<seq<bv8>>, blank: seq<bv8>)
    requires zipped != [] && unzip(zipped) == Some(data)
    ensures o == Opened.Opened(zipped) ==> Unpacked(o, unzip, blank) == if |data| > ROOM then Err(DecompressError) else Ok(data)
    ensures !o.Opened? ==> Unpacked(o, unzip, blank) == Err(DecryptError)
  {
  }

  // ---- Packets that are none ----

  /** The first four bytes decide between three outcomes, before any key is asked for. */
  lemma OtherTags(s: seq<bv8>, networkid: bv32, resolve: (bv32, bv32, bv32) -> Option<Key>,
                  unzip: seq<bv8> -> Option<seq<bv8>>, env: Ambient, blank: seq<bv8>)
    ensures |s| < 4 ==> OpenMeter(s, networkid, resolve, unzip, env, blank) == Err(ReadError)
    ensures |s| >= 4 && s[..4] != BytesOf("o6m1") ==> OpenMeter(s, networkid, resolve, unzip, env, blank) == Err(TypeError)
  {
    hide BytesOf, METER_TAG, Open;
    Tags();
  }

  /** Fields of the header with bytes missing are read as zero: the key of session 0, or of the
      tenant with the nil id, is asked for. */
  lemma HeaderCutOff(t: seq<bv8>, networkid: bv32, resolve: (bv32, bv32, bv32) -> Option<Key>,
                     unzip: seq<bv8> -> Option<seq<bv8>>, env: Ambient, blank: seq<bv8>)
    requires |t| < 4 && resolve(networkid, 0, 0) == None
    ensures OpenMeter(METER_TAG + t, networkid, resolve, unzip, env, blank) == Err(KeyError)
  {
    hide Open;
    assert (METER_TAG + t)[4..] == t;
  }

  lemma TenantCutOff(t: seq<bv8>, resolve: (Uuid, bv32) -> Option<Key>, env: Ambient, blank: seq<bv8>)
    requires |t| < 16 && resolve(Uuid(0, 0), if |t| < 4 then 0 else DecU32(t[..4])) == None
    ensures OpenAuth(AUTH_TAG + t, resolve, env, blank) == None
  {
    hide Open, DecU32;
    assert (AUTH_TAG + t)[4..] == t;
  }

  // ---- Where things are ----

  /** The tags are the letters o6a1 and o6m1. */
  lemma Tags()
    ensures AUTH_TAG == BytesOf("o6a1") && METER_TAG == BytesOf("o6m1")
  {
    hide CharByte, BytesOf;
    LetterO();
    LetterSix();
    LetterA();
    LetterM();
    LetterOne();
    FourBytes('o', '6', 'a', '1');
    FourBytes('o', '6', 'm', '1');
  }

  lemma LetterO()
    ensures CharByte('o') == 0x6f
  {
    assert 'o' as int % 256 == 0x6f;
  }

  lemma LetterSix()
    ensures CharByte('6') == 0x36
  {
    assert '6' as int % 256 == 0x36;
  }

  lemma LetterA()
    ensures CharByte('a') == 0x61
  {
    assert 'a' as int % 256 == 0x61;
  }

  lemma LetterM()
    ensures CharByte('m') == 0x6d
  {
    assert 'm' as int % 256 == 0x6d;
  }

  lemma LetterOne()
    ensures CharByte('1') == 0x31
  {
    assert '1' as int % 256 == 0x31;
  }

  /** An auth packet: the tag, the tenant, the serial number, and then sealed the session, the
      host and the session key. */
  lemma AuthLayout(a: AuthInfo, serial: bv32, pad: seq<bv8>, env: Ambient)
    requires |pad| == 64 && |env.noise| >= 16
    ensures var s, p := AuthPacket(a, serial, pad, env), AuthPayload(a, pad);
      && s[..4] == AUTH_TAG && s[4..12] == EncU64(a.tenantid.msb) && s[12..20] == EncU64(a.tenantid.lsb) && s[20..24] == EncU32(serial)
      && s[24..] == Sealed(a.tenantkey, p, env.now, serial, env.noise)
      && p[..4] == EncU32(a.sessionid) && p[4..12] == EncU64(a.hostid.msb) && p[12..20] == EncU64(a.hostid.lsb)
      && p[20..52] == a.sessionkey && p[52..] == pad
  {
    hide EncU64, EncU32, Sealed, AUTH_TAG, AuthPayload;
    AuthPayloadSize(a, pad);
    PayloadLayout(a, pad);
    var sealed := Sealed(a.tenantkey, AuthPayload(a, pad), env.now, serial, env.noise);
    var s := AuthPacket(a, serial, pad, env);
    assert s == AUTH_TAG + (EncU64(a.tenantid.msb) + (EncU64(a.tenantid.lsb) + (EncU32(serial) + sealed)));
    assert |AUTH_TAG| == 4 by {
      TagLength();
    }
  }

  lemma TagLength()
    ensures |AUTH_TAG| == 4
  {
  }

  lemma PayloadLayout(a: AuthInfo, pad: seq<bv8>)
    ensures var p := AuthPayload(a, pad);
      && |p| == 52 + |pad|
      && p[..4] == EncU32(a.sessionid) && p[4..12] == EncU64(a.hostid.msb) && p[12..20] == EncU64(a.hostid.lsb)
      && p[20..52] == a.sessionkey && p[52..] == pad
  {
    hide EncU64, EncU32;
  }

  /** A meter packet: the tag, the session and the serial number, and then the sealed data. */
  lemma MeterLayout(sessid: bv32, serial: bv32, key: Key, zipped: seq<bv8>, env: Ambient)
    requires |env.noise| >= 16 && |zipped| < U64
    ensures var s := MeterPacket(sessid, serial, key, zipped, env);
      && s[..4] == METER_TAG && s[4..8] == EncU32(sessid) && s[8..12] == EncU32(serial)
      && s[12..] == Sealed(key, zipped, env.now, serial, env.noise)
  {
    hide EncU32, Sealed;
  }

  // ---- The same on ports ----

  method WriteUuid(io: Port, u: Uuid) returns (ok: bool)
    requires io.Writable()
    modifies io`buf, io`pos, io`bitpos, io`bitbuffer, io.buf
    ensures io.Valid() && io.rpos <= io.pos && (io.buf == old(io.buf) || fresh(io.buf))
    ensures io.owned ==> ok
    ensures ok ==> io.Clean() && io.bitpos == 0 && io.Written() == old(io.Flushed()) + EncUuid(u)
  {
    ok := io.Write(EncUuid(u));
  }

  method ReadUuid(io: Port) returns (u: Uuid)
    requires io.Valid()
    modifies io`rpos, io`bitpos, io`bitbuffer
    ensures io.Valid() && (u, io.Unread()) == TakeUuid(old(io.Unread()))
  {
    hide DecU64;
    ghost var s := io.Unread();
    var ok, dat := io.Read(16);
    if ok {
      assert dat[..8] == s[..8] && dat[8..16] == s[8..16];
      u := Uuid(DecU64(dat[..8]), DecU64(dat[8..16]));
    } else {
      u := Uuid(0, 0);
    }
  }

  method FillAuthPayload(auth: AuthInfo, pad: seq<bv8>) returns (payload: Port)
    requires |pad| == 64
    ensures fresh(payload) && fresh(payload.buf) && payload.Valid() && payload.Unread() == AuthPayload(auth, pad)
  {
    hide EncU32, EncUuid, Port.Clean;
    payload := new Port(2048);
    ghost var none := payload.Written();
    var ok := payload.WriteU32(auth.sessionid);
    ok := WriteUuid(payload, auth.hostid);
    ok := payload.Write(auth.sessionkey);
    ok := payload.Write(pad);
    FromNothing(EncU32(auth.sessionid), EncUuid(auth.hostid), auth.sessionkey, pad);
    AuthPayloadSize(auth, pad);
    ReadBack(payload);
  }

  lemma FromNothing(a: seq<bv8>, b: seq<bv8>, c: seq<bv8>, d: seq<bv8>)
    ensures [] + a + b + c + d == a + b + c + d
  {
  }

  /** ioport_wrap_authdata: the packet in a port of its own. */
  method WrapAuthData(auth: AuthInfo, serial: bv32, pad: seq<bv8>, env: Ambient) returns (res: Port)
    requires |pad| == 64 && |env.noise| >= 16
    ensures fresh(res) && fresh(res.buf) && res.Valid() && res.Flushed() == AuthPacket(auth, serial, pad, env)
  {
    hide EncU32, EncUuid, EncInt, Sealed, SealedBody, AuthPayload;
    var payload := FillAuthPayload(auth, pad);
    AuthPayloadSize(auth, pad);
    res := StartAuthPacket(auth.tenantid, serial);
    Encrypt(auth.tenantkey, payload, res, env.now, serial, env.noise);
  }

  method StartAuthPacket(tenantid: Uuid, serial: bv32) returns (res: Port)
    ensures fresh(res) && fresh(res.buf) && res.Writable() && res.owned
    ensures res.Flushed() == AUTH_TAG + EncUuid(tenantid) + EncU32(serial)
  {
    hide EncU32, EncUuid, Port.Clean;
    res := new Port(2048);
    var ok := res.Write(AUTH_TAG);
    ok := WriteUuid(res, tenantid);
    ok := res.WriteU32(serial);
    FromNothing(AUTH_TAG, EncUuid(tenantid), EncU32(serial), []);
  }

  /** What zlib is given: the start of the input's buffer, as many bytes as there are to read.
      On a port not read from yet, those are what there is to read. */
  ghost function Given(input: Port): seq<bv8>
    requires input.Valid()
    reads input, input.buf
  {
    input.buf[..|input.Unread()|]
  }

  /** zlib between two buffers. */
  method RunLibrary(input: Port, out: Port, library: seq<bv8> -> Option<seq<bv8>>) returns (ok: bool)
    requires input.Valid() && input != out && input.buf != out.buf
    requires out.Writable() && out.owned && out.pos == out.bitpos == 0 && out.buf.Length == ROOM
    modifies out`buf, out`pos, out`bitpos, out`bitbuffer, out.buf
    ensures out.Valid() && out.rpos <= out.pos && (out.buf == old(out.buf) || fresh(out.buf))
    ensures ok == Through(library, Given(input)).Some?
    ensures ok ==> out.Writable() && out.bitpos == 0 && out.Written() == Through(library, Given(input)).value
  {
    ok := false;
    var left := input.ReadAvailable();
    if left != 0 {
      var data := input.buf[..left];
      assert data == Given(input);
      var result := library(data);
      if result.Some? && |result.value| <= out.buf.Length - out.pos {
        ok := out.Write(result.value);
        assert out.Written() == result.value;
      }
    }
  }

  method StartMeterPacket(sessid: bv32, serial: bv32) returns (res: Port)
    ensures fresh(res) && fresh(res.buf) && res.Writable() && res.owned
    ensures res.Flushed() == METER_TAG + EncU32(sessid) + EncU32(serial)
  {
    hide EncU32, Port.Clean;
    res := new Port(2048);
    var ok := res.Write(METER_TAG);
    ok := res.WriteU32(sessid);
    ok := res.WriteU32(serial);
    FromNothing(METER_TAG, EncU32(sessid), EncU32(serial), []);
  }

  /** ioport_wrap_meterdata: the packet in a port of its own, or none. */
  method WrapMeterData(sessid: bv32, serial: bv32, key: Key, input: Port, zip: seq<bv8> -> Option<seq<bv8>>, env: Ambient)
    returns (res: Option<Port>)
    requires input.Valid() && |env.noise| >= 16
    requires Through(zip, Given(input)).Some? ==> Through(zip, Given(input)).value != []
    ensures match Through(zip, Given(input))
            case None => res == None
            case Some(zipped) =>
              res.Some? && fresh(res.value) && res.value.Valid() && res.value.Flushed() == MeterPacket(sessid, serial, key, zipped, env)
  {
    hide EncU32, Sealed;
    var gzipped := new Port(2048);
    var packet := StartMeterPacket(sessid, serial);
    res := None;
    var ok := RunLibrary(input, gzipped, zip);
    if ok {
      ReadBack(gzipped);
      Encrypt(key, gzipped, packet, env.now, serial, env.noise);
      res := Some(packet);
    }
  }

  /** ioport_unwrap_meterdata, with the error it notes. */
  method UnwrapMeterData(networkid: bv32, input: Port, resolve: (bv32, bv32, bv32) -> Option<Key>,
                         unzip: seq<bv8> -> Option<seq<bv8>>, env: Ambient)
    returns (res: Unwrapped<Port>, ghost blank: seq<bv8>)
    requires input.Valid()
    modifies input`rpos, input`bitpos, input`bitbuffer
    ensures input.Valid()
    ensures match OpenMeter(old(input.Unread()), networkid, resolve, unzip, env, blank)
            case Err(e) => res == Err(e)
            case Ok(data) => res.Ok? && fresh(res.value) && res.value.Valid() && res.value.Written() == data
  {
    hide TakeU32, Open, Through, Port.Unread, Port.Clean;
    blank := [];
    ghost var s := input.Unread();
    var ok, tag := input.Read(4);
    assert ok ==> tag == s[..4];
    if !ok {
      res := Err(ReadError);
    } else if tag != METER_TAG {
      res := Err(TypeError);
    } else {
      var sessid := input.ReadU32();
      var serial := input.ReadU32();
      var k := resolve(networkid, sessid, serial);
      if k.None? {
        res := Err(KeyError);
      } else {
        res, blank := Unpack(input, k.value, unzip, serial, env);
      }
    }
  }

  method Unpack(input: Port, key: Key, unzip: seq<bv8> -> Option<seq<bv8>>, serial: bv32, env: Ambient)
    returns (res: Unwrapped<Port>, ghost blank: seq<bv8>)
    requires input.Valid()
    modifies input`rpos, input`bitpos, input`bitbuffer
    ensures input.Valid()
    ensures match Unpacked(Open(key, env.stale, old(input.Unread()), env.now, serial), unzip, blank)
            case Err(e) => res == Err(e)
            case Ok(data) => res.Ok? && fresh(res.value) && res.value.Valid() && res.value.Written() == data
  {
    hide Open, Through;
    var decrypted := new Port(2048);
    var out := new Port(2048);
    assert decrypted.Flushed() == [];
    var v := Decrypt(key, input, decrypted, env.now, serial, env.stale);
    blank := decrypted.buf[..];
    res := Err(DecryptError);
    if v == Accepted {
      FreshReads(decrypted);
      var ok := RunLibrary(decrypted, out, unzip);
      res := if ok then Ok(out) else Err(DecompressError);
    }
  }

  /** ioport_unwrap_authdata. */
  method UnwrapAuthData(input: Port, resolve: (Uuid, bv32) -> Option<Key>, env: Ambient)
    returns (res: Option<AuthInfo>, ghost blank: seq<bv8>)
    requires input.Valid()
    modifies input`rpos, input`bitpos, input`bitbuffer
    ensures input.Valid() && res == OpenAuth(old(input.Unread()), resolve, env, blank)
  {
    hide TakeU32, TakeUuid, Open, ReadAuthPayload, Port.Unread, Port.Clean;
    res := None;
    blank := [];
    ghost var s := input.Unread();
    var ok, tag := input.Read(4);
    assert ok ==> tag == s[..4];
    if ok && tag == AUTH_TAG {
      var tenantid := ReadUuid(input);
      var serial := input.ReadU32();
      var k := resolve(tenantid, serial);
      if k.Some? {
        res, blank := OpenAuthBody(input, k.value, tenantid, serial, env);
      }
    }
  }

  method OpenAuthBody(input: Port, key: Key, tenantid: Uuid, serial: bv32, env: Ambient)
    returns (res: Option<AuthInfo>, ghost blank: seq<bv8>)
    requires input.Valid()
    modifies input`rpos, input`bitpos, input`bitbuffer
    ensures input.Valid()
    ensures res == match Open(key, env.stale, old(input.Unread()), env.now, serial)
                   case Opened(p) => ReadAuthPayload(if p == [] then blank else p, tenantid, key, serial)
                   case _ => None
  {
    hide TakeU32, TakeUuid, Open;
    var decrypted := new Port(2048);
    blank := decrypted.Unread();
    assert decrypted.Flushed() == [];
    var v := Decrypt(key, input, decrypted, env.now, serial, env.stale);
    res := None;
    if v == Accepted {
      blank := decrypted.buf[..];
      FreshReads(decrypted);
      res := ReadAuth(decrypted, key, tenantid, serial);
    }
  }

  method ReadAuth(io: Port, key: Key, tenantid: Uuid, serial: bv32) returns (res: Option<AuthInfo>)
    requires io.Valid()
    modifies io`rpos, io`bitpos, io`bitbuffer
    ensures res == ReadAuthPayload(old(io.Unread()), tenantid, key, serial)
  {
    hide TakeU32, TakeUuid, Port.Unread;
    var sessionid := io.ReadU32();
    var hostid := ReadUuid(io);
    var ok, sessionkey := io.Read(32);
    res := if ok then Some(AuthInfo(tenantid, key, sessionid, hostid, sessionkey, serial)) else None;
  }

  lemma FreshReads(io: Port)
    requires io.Valid() && io.rpos == 0
    ensures io.Unread() == if io.Written() == [] then io.buf[..] else io.Written()
  {
  }

  /** A port that was written to and not yet read gives back what was written. */
  lemma ReadBack(io: Port)
    requires io.Valid() && io.rpos == 0 && io.Written() != []
    ensures io.Unread() == io.Written()
  {
  }
}
