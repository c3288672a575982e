/** The host-local identity: random UUIDs (section 5.4 of RFC 9562) and the file that keeps one. */
module Identity {
  import opened Strings

  // ---------------------------------------------------------------- hexadecimal

  function HexDigit(n: bv8): (c: Byte)
    requires n < 16
  {
    if n < 10 then ('0' as int + n as int) as char else ('a' as int + (n as int - 10)) as char
  }

  predicate IsLowerHex(c: Byte) {
    '0' <= c <= '9' || 'a' <= c <= 'f'
  }

  function HexValue(c: Byte): (n: bv8)
    requires IsLowerHex(c)
  {
    if c <= '9' then (c as int - '0' as int) as bv8 else (c as int - 'a' as int + 10) as bv8
  }

  lemma HexDigitValue(n: bv8)
    requires n < 16
    ensures IsLowerHex(HexDigit(n)) && HexValue(HexDigit(n)) == n
  {
    assert n as int < 16;
    assert (n as int) as bv8 == n;
  }

  // ---------------------------------------------------------------- UUIDs

  /** The positions of the four dashes. */
  predicate IsDash(i: nat) {
    i == 8 || i == 13 || i == 18 || i == 23
  }

  /** The number of the hexadecimal digit at a position that is not a dash. */
  function DigitAt(i: nat): (d: nat)
    requires i < 36 && !IsDash(i)
    ensures d < 32
  {
    if i < 8 then i else if i < 13 then i - 1 else if i < 18 then i - 2 else if i < 23 then i - 3 else i - 4
  }

  /** The position of the hexadecimal digit number `d`. */
  function PositionOf(d: nat): (i: nat)
    requires d < 32
    ensures i < 36 && !IsDash(i) && DigitAt(i) == d
  {
    if d < 8 then d else if d < 12 then d + 1 else if d < 16 then d + 2 else if d < 20 then d + 3 else d + 4
  }

  function Nibble(b: seq<bv8>, d: nat): (n: bv8)
    requires d < 2 * |b|
    ensures n < 16
  {
    if d % 2 == 0 then b[d / 2] >> 4 else b[d / 2] & 0x0f
  }

  function FormatUUID(b: seq<bv8>): (s: Text)
    requires |b| == 16
    ensures |s| == 36
  {
    seq(36, i requires 0 <= i < 36 => if IsDash(i) then '-' else HexDigit(Nibble(b, DigitAt(i))))
  }

  /** The version and variant bits set. */
  function Masked(b: seq<bv8>): (m: seq<bv8>)
    requires |b| == 16
    ensures |m| == 16
  {
    b[6 := (b[6] & 0x0f) | 0x40][8 := (b[8] & 0x3f) | 0x80]
  }

  /** ^[0-9a-f]{8}-[0-9a-f]{4}-[1-5][0-9a-f]{3}-[89ab][0-9a-f]{3}-[0-9a-f]{12}$ */
  predicate IsUUID(value: Text) {
    && |value| == 36
    && (forall i | 0 <= i < 36 :: if IsDash(i) then value[i] == '-' else IsLowerHex(value[i]))
    && '1' <= value[14] <= '5'
    && (value[19] == '8' || value[19] == '9' || value[19] == 'a' || value[19] == 'b')
  }

  /** The byte whose two digits a UUID shows at these positions. */
  function DecodedByte(value: Text, k: nat): bv8
    requires IsUUID(value) && k < 16
  {
    (HexValue(value[PositionOf(2 * k)]) << 4) | HexValue(value[PositionOf(2 * k + 1)])
  }

  lemma VersionBits(x: bv8)
    ensures ((x & 0x0f) | 0x40) >> 4 == 4 && ((x & 0x0f) | 0x40) & 0x0f == x & 0x0f
  {
  }

  lemma VariantBits(x: bv8)
    ensures 8 <= ((x & 0x3f) | 0x80) >> 4 <= 11 && ((x & 0x3f) | 0x80) >> 6 == 2
              && ((x & 0x3f) | 0x80) & 0x3f == x & 0x3f
  {
  }

  lemma SplitByte(x: bv8)
    ensures ((x >> 4) << 4) | (x & 0x0f) == x
  {
  }

  lemma VariantDigits(n: bv8)
    requires 8 <= n <= 11
    ensures HexDigit(n) == '8' || HexDigit(n) == '9' || HexDigit(n) == 'a' || HexDigit(n) == 'b'
  {
    assert n == 8 || n == 9 || n == 10 || n == 11;
  }

  lemma FormatIsHex(m: seq<bv8>)
    requires |m| == 16
    ensures forall i | 0 <= i < 36 :: if IsDash(i) then FormatUUID(m)[i] == '-' else IsLowerHex(FormatUUID(m)[i])
  {
    forall i | 0 <= i < 36 && !IsDash(i) ensures IsLowerHex(FormatUUID(m)[i]) {
      HexDigitValue(Nibble(m, DigitAt(i)));
    }
  }

  lemma MaskedIsUUID(b: seq<bv8>)
    requires |b| == 16
    ensures IsUUID(FormatUUID(Masked(b)))
  {
    var m := Masked(b);
    var s := FormatUUID(m);
    FormatIsHex(m);
    VersionBits(b[6]);
    VariantBits(b[8]);
    assert Nibble(m, 12) == 4 && Nibble(m, 16) == m[8] >> 4;
    assert s[14] == HexDigit(4) && s[19] == HexDigit(m[8] >> 4);
    VariantDigits(m[8] >> 4);
  }

  lemma DigitShown(m: seq<bv8>, d: nat)
    requires |m| == 16 && d < 32
    ensures FormatUUID(m)[PositionOf(d)] == HexDigit(Nibble(m, d))
    ensures IsLowerHex(HexDigit(Nibble(m, d))) && HexValue(HexDigit(Nibble(m, d))) == Nibble(m, d)
  {
    HexDigitValue(Nibble(m, d));
  }

  lemma DecodeFormatted(m: seq<bv8>, k: nat)
    requires |m| == 16 && IsUUID(FormatUUID(m)) && k < 16
    ensures DecodedByte(FormatUUID(m), k) == m[k]
  {
    DigitShown(m, 2 * k);
    DigitShown(m, 2 * k + 1);
    SplitByte(m[k]);
  }

  /** For all sixteen random bytes the text is a UUID, and its digits give the bytes back with only
      the six version and variant bits changed. */
  lemma UUIDRoundTrip(b: seq<bv8>)
    requires |b| == 16
    ensures IsUUID(FormatUUID(Masked(b)))
    ensures forall k | 0 <= k < 16 :: DecodedByte(FormatUUID(Masked(b)), k) == Masked(b)[k]
    ensures forall k | 0 <= k < 16 && k != 6 && k != 8 :: Masked(b)[k] == b[k]
    ensures Masked(b)[6] >> 4 == 4 && Masked(b)[6] & 0x0f == b[6] & 0x0f
    ensures Masked(b)[8] >> 6 == 2 && Masked(b)[8] & 0x3f == b[8] & 0x3f
  {
    VersionBits(b[6]);
    VariantBits(b[8]);
    MaskedIsUUID(b);
    forall k | 0 <= k < 16 ensures DecodedByte(FormatUUID(Masked(b)), k) == Masked(b)[k] {
      DecodeFormatted(Masked(b), k);
    }
  }

  /** The digit that belongs at position `i` when digit `first` stands at position `at`. */
  function EncodedAt(src: seq<bv8>, first: nat, at: nat, i: nat): Byte
    requires at <= i && first + (i - at) < 2 * |src|
  {
    HexDigit(Nibble(src, first + (i - at)))
  }

  /** hex.Encode of the bytes lo..hi into dst, from position `at` on. */
  method EncodeHex(dst: array<Byte>, at: nat, src: seq<bv8>, lo: nat, hi: nat)
    requires lo <= hi <= |src| && at + 2 * (hi - lo) <= dst.Length
    modifies dst
    ensures forall i | at <= i < at + 2 * (hi - lo) :: dst[i] == EncodedAt(src, 2 * lo, at, i)
    ensures forall i | 0 <= i < at :: dst[i] == old(dst[i])
    ensures forall i | at + 2 * (hi - lo) <= i < dst.Length :: dst[i] == old(dst[i])
  {
    var k := lo;
    while k < hi
      invariant lo <= k <= hi
      invariant forall i | at <= i < at + 2 * (k - lo) :: dst[i] == EncodedAt(src, 2 * lo, at, i)
      invariant forall i | 0 <= i < at :: dst[i] == old(dst[i])
      invariant forall i | at + 2 * (k - lo) <= i < dst.Length :: dst[i] == old(dst[i])
    {
      var i := at + 2 * (k - lo);
      dst[i] := HexDigit(src[k] >> 4);
      dst[i + 1] := HexDigit(src[k] & 0x0f);
      assert Nibble(src, 2 * k) == src[k] >> 4;
      assert Nibble(src, 2 * k + 1) == src[k] & 0x0f;
      k := k + 1;
    }
  }

  /** The five groups of digits, and the dashes, written into one buffer. */
  method EncodeGroups(src: seq<bv8>) returns (uuid: Text)
    requires |src| == 16
    ensures uuid == FormatUUID(src)
  {
    var dst := new Byte[36];
    EncodeHex(dst, 0, src, 0, 4);
    dst[8] := '-';
    EncodeHex(dst, 9, src, 4, 6);
    dst[13] := '-';
    EncodeHex(dst, 14, src, 6, 8);
    dst[18] := '-';
    EncodeHex(dst, 19, src, 8, 10);
    dst[23] := '-';
    EncodeHex(dst, 24, src, 10, 16);
    uuid := dst[..];
    forall i | 0 <= i < 36 ensures uuid[i] == FormatUUID(src)[i] {
      assert !IsDash(i) ==> uuid[i] == HexDigit(Nibble(src, DigitAt(i)));
    }
  }

  /** newUUID, given what the random source wrote into `b`; the masking is done in place. */
  method NewUUID(b: array<bv8>) returns (uuid: Text)
    requires b.Length == 16
    modifies b
    ensures b[..] == Masked(old(b[..])) && uuid == FormatUUID(b[..])
  {
    b[6] := (b[6] & 0x0f) | 0x40;
    b[8] := (b[8] & 0x3f) | 0x80;
    uuid := EncodeGroups(b[..]);
  }

  // ---------------------------------------------------------------- the identity file

  /** An instant, counted from Go's zero time, with the zone it is expressed in. */
  datatype Time = Time(instant: int, zone: int)

  function UTC(t: Time): Time {
    t.(zone := 0)
  }

  const SCHEMA_VERSION := 1

  datatype AgentIdentity = AgentIdentity(id: Text, createdAt: Time, stateSchemaVersion: int)

  /** What the file holds, as the JSON decoder sees it. */
  datatype Content = Json(identity: AgentIdentity) | NotJson

  datatype LoadError =
    | NoDirectory | MkdirFailed | ReadFailed | WriteFailed
    | Unparsable | InvalidID | InvalidCreatedAt | UnsupportedVersion

  datatype LoadResult = Loaded(identity: AgentIdentity) | LoadFailed(error: LoadError)

  /** How the host answers during one run; a failed write may leave anything behind. */
  datatype Host = Host(mkdirOk: bool, readOk: bool, writeOk: bool, leftover: Option<Content>, random: seq<bv8>,
                       clock: Time)

  function ParseIdentity(data: Content): LoadResult {
    if data.NotJson? then LoadFailed(Unparsable)
    else if !IsUUID(data.identity.id) then LoadFailed(InvalidID)
    else if data.identity.createdAt.instant == 0 then LoadFailed(InvalidCreatedAt)
    else if data.identity.stateSchemaVersion != SCHEMA_VERSION then LoadFailed(UnsupportedVersion)
    else Loaded(data.identity.(createdAt := UTC(data.identity.createdAt)))
  }

  function FreshIdentity(host: Host): AgentIdentity
    requires |host.random| == 16
  {
    AgentIdentity(FormatUUID(Masked(host.random)), UTC(host.clock), SCHEMA_VERSION)
  }

  /** One run: its result, and the file afterwards. */
  function Load(stateDir: Text, file: Option<Content>, host: Host): (LoadResult, Option<Content>)
    requires |host.random| == 16
  {
    if stateDir == "" then (LoadFailed(NoDirectory), file)
    else if !host.mkdirOk then (LoadFailed(MkdirFailed), file)
    else if !host.readOk then (LoadFailed(ReadFailed), file)
    else if file.Some? then (ParseIdentity(file.value), file)
    else if !host.writeOk then (LoadFailed(WriteFailed), host.leftover)
    else (Loaded(FreshIdentity(host)), Some(Json(FreshIdentity(host))))
  }

  class StateDirectory {
    const path: Text
    var file: Option<Content>

    constructor (path: Text, file: Option<Content>)
      ensures this.path == path && this.file == file
    {
      this.path, this.file := path, file;
    }

    method LoadIdentity(host: Host) returns (result: LoadResult)
      requires |host.random| == 16
      modifies this
      ensures (result, file) == Load(path, old(file), host)
    {
      if path == "" {
        return LoadFailed(NoDirectory);
      }
      if !host.mkdirOk {
        return LoadFailed(MkdirFailed);
      }
      if !host.readOk {
        return LoadFailed(ReadFailed);
      }
      if file.Some? {
        return ParseIdentity(file.value);
      }
      var b := new bv8[16](i requires 0 <= i < 16 => host.random[i]);
      assert b[..] == host.random;
      var id := NewUUID(b);
      var identity := AgentIdentity(id, UTC(host.clock), SCHEMA_VERSION);
      if !host.writeOk {
        file := host.leftover;
        return LoadFailed(WriteFailed);
      }
      file := Some(Json(identity));
      return Loaded(identity);
    }
  }

  // ---------------------------------------------------------------- which files are accepted

  predicate IsGroup(value: Text, from: nat, to: nat)
    requires to <= |value|
  {
    forall i | from <= i < to :: '0' <= value[i] <= '9' || 'a' <= value[i] <= 'f'
  }

  /** Five groups of lower-case hexadecimal digits with dashes between them, of version 1 to 5 and the
      variant of section 4.1 of RFC 9562. */
  lemma UUIDMeaning(value: Text)
    ensures IsUUID(value) <==>
              && |value| == 36
              && IsGroup(value, 0, 8) && value[8] == '-'
              && IsGroup(value, 9, 13) && value[13] == '-'
              && '1' <= value[14] <= '5' && IsGroup(value, 15, 18) && value[18] == '-'
              && (value[19] == '8' || value[19] == '9' || value[19] == 'a' || value[19] == 'b')
              && IsGroup(value, 20, 23) && value[23] == '-'
              && IsGroup(value, 24, 36)
  {
  }

  /** A file is accepted exactly when it decodes, its id is a UUID, its time is set and its schema
      version is 1; the identity is the one it holds, with the time in UTC. */
  lemma ParseIdentityMeaning(data: Content)
    ensures ParseIdentity(data).Loaded? <==>
              && data.Json? && IsUUID(data.identity.id)
              && data.identity.createdAt.instant != 0 && data.identity.stateSchemaVersion == 1
    ensures ParseIdentity(data).Loaded? ==>
              var identity := ParseIdentity(data).identity;
              && identity.id == data.identity.id
              && identity.createdAt.instant == data.identity.createdAt.instant && identity.createdAt.zone == 0
              && identity.stateSchemaVersion == 1
    ensures ParseIdentity(data).LoadFailed? ==>
              ParseIdentity(data).error ==
              if data.NotJson? then Unparsable
              else if !IsUUID(data.identity.id) then InvalidID
              else if data.identity.createdAt.instant == 0 then InvalidCreatedAt
              else UnsupportedVersion
  {
  }

  /** A new identity carries the random id, the time of the clock in UTC, and schema version 1. */
  lemma FreshMeaning(host: Host)
    requires |host.random| == 16
    ensures FreshIdentity(host).id == FormatUUID(Masked(host.random))
    ensures FreshIdentity(host).createdAt.instant == host.clock.instant && FreshIdentity(host).createdAt.zone == 0
    ensures FreshIdentity(host).stateSchemaVersion == 1
  {
  }

  // ---------------------------------------------------------------- sequences of runs

  predicate IsPlausible(host: Host) {
    |host.random| == 16 && host.clock.instant != 0
  }

  /** The file after a sequence of runs. */
  function FileAfter(stateDir: Text, file: Option<Content>, hosts: seq<Host>): Option<Content>
    requires forall i | 0 <= i < |hosts| :: IsPlausible(hosts[i])
  {
    if hosts == [] then file
    else
      var n := |hosts| - 1;
      assert IsPlausible(hosts[n]);
      Load(stateDir, FileAfter(stateDir, file, hosts[..n]), hosts[n]).1
  }

  /** The result of run number `i`. */
  function ResultOf(stateDir: Text, file: Option<Content>, hosts: seq<Host>, i: nat): LoadResult
    requires forall j | 0 <= j < |hosts| :: IsPlausible(hosts[j])
    requires i < |hosts|
  {
    assert IsPlausible(hosts[i]);
    Load(stateDir, FileAfter(stateDir, file, hosts[..i]), hosts[i]).0
  }

  /** The file holds this identity. */
  predicate Keeps(file: Option<Content>, identity: AgentIdentity) {
    file.Some? && ParseIdentity(file.value) == Loaded(identity)
  }

  lemma LoadKeeps(stateDir: Text, file: Option<Content>, host: Host)
    requires IsPlausible(host) && Load(stateDir, file, host).0.Loaded?
    ensures Keeps(Load(stateDir, file, host).1, Load(stateDir, file, host).0.identity)
    ensures IsUUID(Load(stateDir, file, host).0.identity.id)
    ensures file.Some? ==> Load(stateDir, file, host).1 == file
  {
    MaskedIsUUID(host.random);
  }

  lemma {:induction false} FileStays(stateDir: Text, file: Option<Content>, hosts: seq<Host>, i: nat, j: nat)
    requires forall k | 0 <= k < |hosts| :: IsPlausible(hosts[k])
    requires i < j <= |hosts|
    requires ResultOf(stateDir, file, hosts, i).Loaded?
    ensures FileAfter(stateDir, file, hosts[..j]) == FileAfter(stateDir, file, hosts[..i + 1])
    ensures Keeps(FileAfter(stateDir, file, hosts[..j]), ResultOf(stateDir, file, hosts, i).identity)
    decreases j
  {
    assert IsPlausible(hosts[i]);
    if j == i + 1 {
      assert hosts[..j][..i] == hosts[..i];
      LoadKeeps(stateDir, FileAfter(stateDir, file, hosts[..i]), hosts[i]);
    } else {
      FileStays(stateDir, file, hosts, i, j - 1);
      assert hosts[..j][..j - 1] == hosts[..j - 1];
      assert IsPlausible(hosts[j - 1]);
    }
  }

  /** Once a run has succeeded, no later run rewrites the file, and every later run that can reach
      and read it returns the same identity, whose id is a UUID. */
  lemma IdentityIsStable(stateDir: Text, file: Option<Content>, hosts: seq<Host>, i: nat, j: nat)
    requires forall k | 0 <= k < |hosts| :: IsPlausible(hosts[k])
    requires i < j < |hosts| && ResultOf(stateDir, file, hosts, i).Loaded?
    ensures FileAfter(stateDir, file, hosts[..j + 1]) == FileAfter(stateDir, file, hosts[..i + 1])
    ensures hosts[j].mkdirOk && hosts[j].readOk ==>
              ResultOf(stateDir, file, hosts, j) == ResultOf(stateDir, file, hosts, i)
    ensures ResultOf(stateDir, file, hosts, j).Loaded? ==>
              ResultOf(stateDir, file, hosts, j) == ResultOf(stateDir, file, hosts, i)
    ensures IsUUID(ResultOf(stateDir, file, hosts, i).identity.id)
  {
    FileStays(stateDir, file, hosts, i, j);
    FileStays(stateDir, file, hosts, i, j + 1);
    assert IsPlausible(hosts[i]);
    LoadKeeps(stateDir, FileAfter(stateDir, file, hosts[..i]), hosts[i]);
  }
}
