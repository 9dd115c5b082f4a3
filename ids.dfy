/** Identifier generation and validation: which kind of identifier a telemetry key gets, the
    shapes the generators produce, the format validator (including the parse `uuid.UUID`
    performs), and the lenient base64 helper. Randomness is a tape of bytes the generators
    read from. */
module IdGenerator {
  import opened Common
  import opened Codec

  // ----- randomness -----

  /** The operating system's random source: an unbounded tape of bytes and the position of the
      next unread byte. */
  class Entropy {
    const tape: nat -> byte
    var pos: nat

    constructor(tape: nat -> byte)
      ensures this.tape == tape && pos == 0
    {
      this.tape := tape;
      pos := 0;
    }

    /** `os.urandom(n)` / `secrets.token_bytes(n)`. */
    method Draw(n: nat) returns (bs: seq<byte>)
      modifies this
      ensures bs == Stream(tape, old(pos), n) && pos == old(pos) + n
    {
      bs := Stream(tape, pos, n);
      pos := pos + n;
    }
  }

  function Stream(tape: nat -> byte, from: nat, n: nat): (bs: seq<byte>)
    ensures |bs| == n && forall i :: 0 <= i < n ==> bs[i] == tape(from + i)
  {
    seq(n, i requires 0 <= i < n => tape(from + i))
  }

  // ----- shapes -----

  /** The positions of the four dashes in the canonical UUID text. */
  predicate DashPos(i: int) {
    i == 8 || i == 13 || i == 18 || i == 23
  }

  /** The canonical text of a version-4 UUID: 8-4-4-4-12 lowercase hex digits, version nibble 4,
      variant bits 10. */
  predicate IsUuid4(s: string) {
    |s| == 36 &&
    (forall i :: 0 <= i < 36 ==> if DashPos(i) then s[i] == '-' else IsLowerHexChar(s[i])) &&
    s[14] == '4' && s[19] in {'8', '9', 'a', 'b'}
  }

  /** 64 lowercase hex digits: a machine id or a SHA-256 digest. */
  predicate IsHex64(s: string) {
    |s| == 64 && forall i :: 0 <= i < 64 ==> IsLowerHexChar(s[i])
  }

  /** 32 hex digits grouped 8-4-4-4-12 with dashes, as `str(uuid.UUID)` prints them. */
  function Dashed(h: string): string
    requires |h| == 32
  {
    h[..8] + "-" + (h[8..12] + "-" + (h[12..16] + "-" + (h[16..20] + "-" + h[20..])))
  }

  /** Where each character of `Dashed(h)` comes from. */
  lemma DashedChars(h: string)
    requires |h| == 32
    ensures |Dashed(h)| == 36
    ensures forall i :: 0 <= i < 36 && DashPos(i) ==> Dashed(h)[i] == '-'
    ensures forall i :: 0 <= i < 8 ==> Dashed(h)[i] == h[i]
    ensures forall i :: 9 <= i < 13 ==> Dashed(h)[i] == h[i - 1]
    ensures forall i :: 14 <= i < 18 ==> Dashed(h)[i] == h[i - 2]
    ensures forall i :: 19 <= i < 23 ==> Dashed(h)[i] == h[i - 3]
    ensures forall i :: 24 <= i < 36 ==> Dashed(h)[i] == h[i - 4]
  {
    var t3 := h[16..20] + "-" + h[20..];
    var t2 := h[12..16] + "-" + t3;
    var t1 := h[8..12] + "-" + t2;
    assert Dashed(h) == h[..8] + "-" + t1;
    assert |t3| == 17 && |t2| == 22 && |t1| == 27;
  }

  /** `str(uuid.uuid4()).lower()` for 16 random bytes: the version and variant bits are forced,
      then the hex rendering is grouped with dashes. */
  function FormatUuid4(random: seq<byte>): (s: string)
    requires |random| == 16
    ensures IsUuid4(s)
    ensures RemoveDashes(s) == Hex(random[6 := 0x40 + random[6] % 16][8 := 0x80 + random[8] % 64])
  {
    var b := random[6 := 0x40 + random[6] % 16][8 := 0x80 + random[8] % 64];
    var h := Hex(b);
    assert h[12] == HexDigit(b[6] / 16) && h[16] == HexDigit(b[8] / 16);
    var s := Dashed(h);
    DashedChars(h);
    forall i | 0 <= i < 36 ensures if DashPos(i) then s[i] == '-' else IsLowerHexChar(s[i]) {
      if !DashPos(i) {
        if i < 8 {
          assert s[i] == h[i];
        } else if i < 13 {
          assert s[i] == h[i - 1];
        } else if i < 18 {
          assert s[i] == h[i - 2];
        } else if i < 23 {
          assert s[i] == h[i - 3];
        } else {
          assert s[i] == h[i - 4];
        }
      }
    }
    assert s[14] == h[12] && s[19] == h[16];
    RemoveDashesGroups(h);
    s
  }

  /** `s.replace('-', '')`. */
  function RemoveDashes(s: string): (r: string)
    ensures |r| <= |s| && forall i :: 0 <= i < |r| ==> r[i] != '-'
    ensures (forall i :: 0 <= i < |s| ==> s[i] != '-') ==> r == s
  {
    if s == [] then []
    else if s[0] == '-' then RemoveDashes(s[1..])
    else [s[0]] + RemoveDashes(s[1..])
  }

  lemma {:induction false} RemoveDashesConcat(a: string, b: string)
    ensures RemoveDashes(a + b) == RemoveDashes(a) + RemoveDashes(b)
    decreases |a|
  {
    if a != [] {
      assert (a + b)[1..] == a[1..] + b;
      RemoveDashesConcat(a[1..], b);
    } else {
      assert a + b == b;
    }
  }

  /** Removing the dash after a dash-free group keeps the group and goes on after the dash. */
  lemma RemoveDashesJoin(a: string, b: string)
    requires forall i :: 0 <= i < |a| ==> a[i] != '-'
    ensures RemoveDashes(a + "-" + b) == a + RemoveDashes(b)
  {
    assert a + "-" + b == a + ("-" + b);
    RemoveDashesConcat(a, "-" + b);
    assert ("-" + b)[1..] == b;
  }

  lemma RemoveDashesGroups(h: string)
    requires |h| == 32 && forall i :: 0 <= i < 32 ==> h[i] != '-'
    ensures RemoveDashes(Dashed(h)) == h
  {
    var t3 := h[16..20] + "-" + h[20..];
    var t2 := h[12..16] + "-" + t3;
    var t1 := h[8..12] + "-" + t2;
    RemoveDashesJoin(h[16..20], h[20..]);
    RemoveDashesJoin(h[12..16], t3);
    RemoveDashesJoin(h[8..12], t2);
    RemoveDashesJoin(h[..8], t1);
    assert h[..8] + (h[8..12] + (h[12..16] + (h[16..20] + h[20..]))) == h;
  }

  // ----- generators -----

  /** `generate_uuid()` (and `generate_device_id()`, which returns the same). */
  method GenerateUuid(e: Entropy) returns (id: string)
    modifies e
    ensures IsUuid4(id) && id == FormatUuid4(Stream(e.tape, old(e.pos), 16)) && e.pos == old(e.pos) + 16
  {
    var random := e.Draw(16);
    id := FormatUuid4(random);
  }

  /** `generate_machine_id()`: the hex rendering of 32 random bytes. */
  method GenerateMachineId(e: Entropy) returns (id: string)
    modifies e
    ensures IsHex64(id) && id == Hex(Stream(e.tape, old(e.pos), 32)) && e.pos == old(e.pos) + 32
  {
    var random := e.Draw(32);
    id := Hex(random);
  }

  /** `generate_sha256_hash()`: the hex digest of the SHA-256 hash of a fresh UUID's bytes. The
      digest is modelled as 32 further bytes of the tape, following the 16 the UUID consumed. */
  method GenerateSha256Hash(e: Entropy) returns (id: string)
    modifies e
    ensures IsHex64(id) && id == Hex(Stream(e.tape, old(e.pos) + 16, 32)) && e.pos == old(e.pos) + 48
  {
    var uuidBytes := e.Draw(16);
    var digest := e.Draw(32);
    id := Hex(digest);
  }

  // ----- dispatch by key -----

  datatype IdKind = Uuid | MachineHex | Sha256

  /** The substring tests of the machine-id branch. */
  predicate MachineRule(key: string) {
    Contains(key, "machineId") || Contains(Lower(key), "machine_id")
  }

  /** `get_id_for_key(key)`, as written: which generator the if/elif chain calls. The "mac"
      test inside the machine-id branch also matches the "mac" of "machine". */
  function KindForKey(key: string): (k: IdKind)
    ensures k == MachineHex ==> MachineRule(key)
    ensures k == Sha256 ==> key == "telemetry.macMachineId" || MachineRule(key) || Contains(key, "sqmId")
  {
    var low := Lower(key);
    if key == "telemetry.devDeviceId" then Uuid
    else if key == "telemetry.macMachineId" then Sha256
    else if MachineRule(key) then (if Contains(low, "mac") then Sha256 else MachineHex)
    else if Contains(key, "deviceId") || Contains(low, "device_id") then Uuid
    else if Contains(key, "userId") || Contains(low, "user_id") then Uuid
    else if Contains(key, "sqmId") then Sha256
    else Uuid
  }

  /** A lowercased key that names a Mac machine id, in either spelling the machine-id rule
      accepts: `macMachineId` or `mac_machine_id`. */
  predicate NamesMacMachine(low: string) {
    Contains(low, "macmachine") || Contains(low, "mac_machine")
  }

  /** The dispatch the comments of the machine-id branch describe: only a Mac machine id
      (`NamesMacMachine` of the lowercased key) is hashed, any other machine id is 64 random
      hex digits. */
  function IntendedKindForKey(key: string): (k: IdKind)
    ensures !MachineRule(key) ==> k == KindForKey(key)
    ensures k == Sha256 && MachineRule(key) ==> key == "telemetry.macMachineId" || NamesMacMachine(Lower(key))
  {
    var low := Lower(key);
    if key == "telemetry.devDeviceId" then Uuid
    else if key == "telemetry.macMachineId" then Sha256
    else if MachineRule(key) then (if NamesMacMachine(low) then Sha256 else MachineHex)
    else KindForKey(key)
  }

  /** "m", "a", "c" at offset `k` put "mac" in the string. */
  lemma MacAt(low: string, k: int)
    requires 0 <= k && k + 3 <= |low| && low[k] == 'm' && low[k + 1] == 'a' && low[k + 2] == 'c'
    ensures Contains(low, "mac")
  {
    assert OccursAt(low, "mac", k);
    ContainsAt(low, "mac");
  }

  /** Every key the machine-id branch accepts contains "mac" once lowercased, so the 64-hex
      machine-id generator is never chosen. */
  lemma MachineRuleImpliesMac(key: string)
    requires MachineRule(key)
    ensures Contains(Lower(key), "mac")
  {
    var low := Lower(key);
    if Contains(key, "machineId") {
      ContainsAt(key, "machineId");
      var k :| OccursAt(key, "machineId", k);
      assert key[k..k + 9][0] == key[k] && key[k..k + 9][1] == key[k + 1] && key[k..k + 9][2] == key[k + 2];
      MacAt(low, k);
    } else {
      ContainsAt(low, "machine_id");
      var k :| OccursAt(low, "machine_id", k);
      assert low[k..k + 10][0] == low[k] && low[k..k + 10][1] == low[k + 1] && low[k..k + 10][2] == low[k + 2];
      MacAt(low, k);
    }
  }

  lemma MachineHexUnreachable(key: string)
    ensures KindForKey(key) != MachineHex
  {
    if MachineRule(key) {
      MachineRuleImpliesMac(key);
    }
  }

  /** "telemetry.machineId" gets a SHA-256 digest, although its branch promises 64-hex. */
  lemma MachineIdKeyIsHashed()
    ensures KindForKey("telemetry.machineId") == Sha256
    ensures IntendedKindForKey("telemetry.machineId") == MachineHex
  {
    var key := "telemetry.machineId";
    assert OccursAt(key, "machineId", 10);
    ContainsAt(key, "machineId");
    MachineRuleImpliesMac(key);
    NotContainsMacMachine();
  }

  lemma NotContainsMacMachine()
    ensures !NamesMacMachine(Lower("telemetry.machineId"))
  {
    var low := Lower("telemetry.machineId");
    assert low == "telemetry.machineid";
    forall k | 0 <= k && k + 10 <= |low| ensures !OccursAt(low, "macmachine", k) {
      assert low[k..k + 10][2] == low[k + 2] != 'c';
    }
    ContainsAt(low, "macmachine");
    NoUnderscoreInMachineKey();
  }

  lemma NoUnderscoreInMachineKey()
    ensures !Contains(Lower("telemetry.machineId"), "mac_machine")
  {
    var low := Lower("telemetry.machineId");
    assert low == "telemetry.machineid";
    NotContainsWithout(low, "mac_machine", 3);
  }

  /** Both spellings of a Mac machine id are hashed by the corrected dispatch. */
  lemma MacMachineSpellingsHashed()
    ensures IntendedKindForKey("telemetry.macMachineId") == Sha256
    ensures IntendedKindForKey("mac_machine_id") == Sha256
  {
    var key := "mac_machine_id";
    assert Lower(key) == key;
    assert OccursAt(key, "machine_id", 4);
    ContainsAt(key, "machine_id");
    assert OccursAt(key, "mac_machine", 0);
    ContainsAt(key, "mac_machine");
  }

  /** The corrected dispatch differs from the written one only on machine-id keys that do not
      name a Mac machine id, and it keeps both exact keys. */
  lemma IntendedKindAgrees(key: string)
    ensures IntendedKindForKey(key) != KindForKey(key) <==>
      key != "telemetry.devDeviceId" && key != "telemetry.macMachineId" &&
      MachineRule(key) && !NamesMacMachine(Lower(key))
    ensures IntendedKindForKey(key) == MachineHex <==>
      key != "telemetry.devDeviceId" && key != "telemetry.macMachineId" &&
      MachineRule(key) && !NamesMacMachine(Lower(key))
  {
    MachineHexUnreachable(key);
    if MachineRule(key) {
      MachineRuleImpliesMac(key);
    }
  }

  /** "telemetry.macMachineId" holds "MachineId" with a capital M, so not "machineId". */
  lemma NoMachineIdInMacKey()
    ensures !Contains("telemetry.macMachineId", "machineId")
  {
    var key := "telemetry.macMachineId";
    forall i | 0 <= i < 16 ensures key[i] != 'h' {
    }
    forall k | 0 <= k && k + 9 <= |key| ensures !OccursAt(key, "machineId", k) {
      assert key[k..k + 9][0] == key[k] && key[k..k + 9][3] == key[k + 3];
      if k == 13 {
        assert key[13] == 'M';
      } else {
        assert key[k + 3] != 'h';
      }
    }
    ContainsAt(key, "machineId");
  }

  lemma NoMachineUnderscoreInMacKey()
    ensures !Contains(Lower("telemetry.macMachineId"), "machine_id")
  {
    var low := Lower("telemetry.macMachineId");
    assert low == "telemetry.macmachineid";
    NotContainsWithout(low, "machine_id", 7);
  }

  /** The two exact keys are decided before any substring rule: the device id is a UUID even
      though it contains "deviceId", and the Mac machine id is a digest although no substring
      rule would take it into the machine-id branch. */
  lemma ExactKeysFirst()
    ensures KindForKey("telemetry.devDeviceId") == Uuid
    ensures KindForKey("telemetry.macMachineId") == Sha256
    ensures !MachineRule("telemetry.macMachineId")
  {
    NoMachineIdInMacKey();
    NoMachineUnderscoreInMacKey();
  }

  /** The identifier the generator of kind `k` produces when the tape is read from `pos`. */
  function IdOfKind(k: IdKind, tape: nat -> byte, pos: nat): (id: string)
    ensures k == Uuid ==> IsUuid4(id)
    ensures k != Uuid ==> IsHex64(id)
  {
    match k
    case Uuid => FormatUuid4(Stream(tape, pos, 16))
    case MachineHex => Hex(Stream(tape, pos, 32))
    case Sha256 => Hex(Stream(tape, pos + 16, 32))
  }

  /** How many tape bytes the generator of kind `k` reads. */
  function Consumed(k: IdKind): nat {
    match k
    case Uuid => 16
    case MachineHex => 32
    case Sha256 => 48
  }

  /** `get_id_for_key(key)`: the generator `KindForKey` selects, run on the random source. */
  method GetIdForKey(e: Entropy, key: string) returns (id: string)
    modifies e
    ensures id == IdOfKind(KindForKey(key), e.tape, old(e.pos))
    ensures e.pos == old(e.pos) + Consumed(KindForKey(key))
  {
    match KindForKey(key)
    case Uuid => id := GenerateUuid(e);
    case MachineHex => id := GenerateMachineId(e);
    case Sha256 => id := GenerateSha256Hash(e);
  }

  /** `generate_telemetry_ids()`: one identifier of each kind, generated in the order listed. */
  method GenerateTelemetryIds(e: Entropy) returns (ids: map<string, string>)
    modifies e
    ensures ids.Keys == {"machine_id", "device_id", "mac_machine_id", "permanent_device_id", "permanent_user_id"}
    ensures IsHex64(ids["machine_id"]) && IsHex64(ids["mac_machine_id"])
    ensures IsUuid4(ids["device_id"]) && IsUuid4(ids["permanent_device_id"]) && IsUuid4(ids["permanent_user_id"])
    ensures e.pos == old(e.pos) + 32 + 16 + 48 + 16 + 16
  {
    var machine := GenerateMachineId(e);
    var device := GenerateUuid(e);
    var macMachine := GenerateSha256Hash(e);
    var permanentDevice := GenerateUuid(e);
    var permanentUser := GenerateUuid(e);
    assert |"machine_id"| == 10 && |"device_id"| == 9 && |"mac_machine_id"| == 14;
    assert |"permanent_device_id"| == 19 && |"permanent_user_id"| == 17;
    ids := map["machine_id" := machine, "device_id" := device, "mac_machine_id" := macMachine,
               "permanent_device_id" := permanentDevice, "permanent_user_id" := permanentUser];
  }

  // ----- validation -----

  predicate IsHexDigitChar(c: char) {
    '0' <= c <= '9' || 'a' <= c <= 'f' || 'A' <= c <= 'F'
  }

  function HexDigitValue(c: char): (v: nat)
    requires IsHexDigitChar(c)
    ensures v < 16
  {
    if '0' <= c <= '9' then c as int - '0' as int
    else if 'a' <= c <= 'f' then c as int - 'a' as int + 10
    else c as int - 'A' as int + 10
  }

  /** Hex digits with single underscores between them, as `int(s, 16)` accepts them. */
  predicate DigitRun(s: string)
    decreases |s|
  {
    s != [] && IsHexDigitChar(s[0]) &&
    (|s| == 1 || (s[1] == '_' && DigitRun(s[2..])) || (s[1] != '_' && DigitRun(s[1..])))
  }

  lemma {:induction false} DigitRunChars(s: string)
    requires DigitRun(s)
    ensures forall i :: 0 <= i < |s| ==> IsHexDigitChar(s[i]) || s[i] == '_'
    decreases |s|
  {
    if |s| > 1 {
      if s[1] == '_' {
        DigitRunChars(s[2..]);
        assert forall i :: 2 <= i < |s| ==> s[i] == s[2..][i - 2];
      } else {
        DigitRunChars(s[1..]);
        assert forall i :: 1 <= i < |s| ==> s[i] == s[1..][i - 1];
      }
    }
  }

  /** The value of hex digits, underscores skipped. */
  function HexValue(s: string): nat
    requires forall i :: 0 <= i < |s| ==> IsHexDigitChar(s[i]) || s[i] == '_'
  {
    if s == [] then 0
    else if s[|s| - 1] == '_' then HexValue(s[..|s| - 1])
    else HexValue(s[..|s| - 1]) * 16 + HexDigitValue(s[|s| - 1])
  }

  /** The whitespace `int()` skips around its argument: the ASCII characters " \t\n\v\f\r" and
      every non-ASCII character `str.isspace()` accepts (the ASCII separators U+001C..U+001F
      are not skipped). */
  predicate IntSpace(c: char) {
    IsPySpace(c) && !('\U{1C}' <= c <= '\U{1F}')
  }

  function StripIntSpace(s: string): (r: string)
    ensures |r| <= |s|
    decreases |s|
  {
    if s != [] && IntSpace(s[0]) then StripIntSpace(s[1..])
    else if s != [] && IntSpace(s[|s| - 1]) then StripIntSpace(s[..|s| - 1])
    else s
  }

  /** `int(s, 16)`: surrounding whitespace, an optional sign, an optional `0x` prefix that may be
      followed by one underscore, then a digit run. None is the ValueError. */
  function IntBase16(s: string): Option<int> {
    var t := StripIntSpace(s);
    var negative := t != [] && t[0] == '-';
    var u := if t != [] && (t[0] == '+' || t[0] == '-') then t[1..] else t;
    var body :=
      if |u| >= 2 && u[0] == '0' && (u[1] == 'x' || u[1] == 'X') then
        (if |u| >= 3 && u[2] == '_' then u[3..] else u[2..])
      else u;
    if DigitRun(body) then
      DigitRunChars(body);
      var v: int := HexValue(body);
      Some(if negative then -v else v)
    else None
  }

  /** `uuid.UUID(hex=s)` accepts `s`: "urn:" and "uuid:" are removed, braces stripped from the
      ends, dashes removed; 32 characters must remain, parse as a base-16 integer, and lie in
      [0, 2^128) = [0, 16^32). */
  predicate UuidParses(s: string) {
    var h := RemoveDashes(StripChars(ReplaceAll(ReplaceAll(s, "urn:", ""), "uuid:", ""), {'{', '}'}));
    |h| == 32 &&
    match IntBase16(h)
    case None => false
    case Some(v) => 0 <= v < Pow16(32)
  }

  /** `validate_id_format(value, type)`. */
  function ValidateIdFormat(value: string, idType: string): (ok: bool)
    ensures value == [] ==> !ok
    ensures idType !in {"uuid", "machine_id", "sha256"} ==> !ok
    ensures idType in {"machine_id", "sha256"} ==>
      (ok <==> |value| == 64 && forall i :: 0 <= i < |value| ==> IsLowerHexChar(LowerChar(value[i])))
    ensures idType == "uuid" ==> (ok <==> value != [] && UuidParses(value))
  {
    if value == [] then false
    else if idType == "uuid" then UuidParses(value)
    else if idType == "machine_id" || idType == "sha256" then
      |value| == 64 && forall i :: 0 <= i < |value| ==> IsLowerHexChar(LowerChar(value[i]))
    else false
  }

  lemma {:induction false} HexValueBound(s: string)
    requires forall i :: 0 <= i < |s| ==> IsHexDigitChar(s[i])
    ensures HexValue(s) < Pow16(|s|)
    decreases |s|
  {
    if s != [] {
      HexValueBound(s[..|s| - 1]);
    }
  }

  function Pow16(n: nat): (p: nat)
    ensures p >= 1
  {
    if n == 0 then 1 else 16 * Pow16(n - 1)
  }

  lemma {:induction false} DigitRunOfHex(s: string)
    requires s != [] && forall i :: 0 <= i < |s| ==> IsHexDigitChar(s[i])
    ensures DigitRun(s)
    decreases |s|
  {
    if |s| > 1 {
      DigitRunOfHex(s[1..]);
    }
  }

  lemma StripIntSpaceHex(s: string)
    requires forall i :: 0 <= i < |s| ==> IsHexDigitChar(s[i])
    ensures StripIntSpace(s) == s
  {
  }

  /** A plain run of hex digits parses as its value. */
  lemma IntBase16OfHex(h: string)
    requires h != [] && forall i :: 0 <= i < |h| ==> IsHexDigitChar(h[i])
    ensures IntBase16(h) == Some(HexValue(h))
  {
    StripIntSpaceHex(h);
    DigitRunOfHex(h);
  }

  /** The canonical UUID text has nothing for `uuid.UUID` to strip but its dashes. */
  lemma UuidTextNoops(s: string)
    requires IsUuid4(s)
    ensures StripChars(ReplaceAll(ReplaceAll(s, "urn:", ""), "uuid:", ""), {'{', '}'}) == s
  {
    assert forall i :: 0 <= i < |s| ==> s[i] != 'u';
    ReplaceAllAbsent(s, "urn:", "");
    ReplaceAllAbsent(s, "uuid:", "");
    StripCharsNoop(s, {'{', '}'});
  }

  /** What `generate_uuid` returns passes the "uuid" validator. */
  lemma UuidValidates(random: seq<byte>)
    requires |random| == 16
    ensures ValidateIdFormat(FormatUuid4(random), "uuid")
  {
    var s := FormatUuid4(random);
    UuidTextNoops(s);
    var h := RemoveDashes(s);
    assert |h| == 32;
    IntBase16OfHex(h);
    HexValueBound(h);
  }

  /** What `generate_machine_id` and `generate_sha256_hash` return passes the "machine_id" and
      "sha256" validators. */
  lemma Hex64Validates(id: string)
    requires IsHex64(id)
    ensures ValidateIdFormat(id, "machine_id") && ValidateIdFormat(id, "sha256")
  {
    assert forall i :: 0 <= i < |id| ==> LowerChar(id[i]) == id[i];
  }

  /** Whatever `get_id_for_key` returns passes the validator for its kind. */
  lemma IdOfKindValidates(k: IdKind, tape: nat -> byte, pos: nat)
    ensures k == Uuid ==> ValidateIdFormat(IdOfKind(k, tape, pos), "uuid")
    ensures k != Uuid ==> ValidateIdFormat(IdOfKind(k, tape, pos), "machine_id")
    ensures k != Uuid ==> ValidateIdFormat(IdOfKind(k, tape, pos), "sha256")
  {
    if k == Uuid {
      UuidValidates(Stream(tape, pos, 16));
    } else {
      Hex64Validates(IdOfKind(k, tape, pos));
    }
  }

  /** A mixed-case digest is still accepted: the validator lowercases before comparing. */
  lemma Hex64ValidatesUpper(id: string)
    requires IsHex64(id)
    ensures ValidateIdFormat(Upper(id), "sha256")
  {
    var u := Upper(id);
    forall i | 0 <= i < |u| ensures IsLowerHexChar(LowerChar(u[i])) {
      assert LowerChar(UpperChar(id[i])) == id[i];
    }
  }

  // ----- base64 helper and the id backup record -----

  /** `decode_base64_string(s)`: the UTF-8 text of the decoded bytes, or `s` itself when
      decoding or UTF-8 decoding fails. */
  function DecodeBase64String(s: string): (r: string)
    ensures B64Decode(s).None? ==> r == s
    ensures B64Decode(s).Some? && Utf8Decode(B64Decode(s).value).None? ==> r == s
  {
    match B64Decode(s)
    case None => s
    case Some(bs) =>
      match Utf8Decode(bs)
      case None => s
      case Some(text) => text
  }

  /** Decoding the encoding of an ASCII string gives the string back. */
  lemma DecodeBase64StringEncode(s: string)
    requires IsAscii(s)
    ensures DecodeBase64String(Encode(AsciiBytes(s))) == s
  {
    B64DecodeEncode(AsciiBytes(s));
    Utf8DecodeAscii(s);
  }

  /** Non-ASCII text is returned unchanged (`b64decode` refuses it). */
  lemma DecodeBase64StringNonAscii(s: string)
    requires !IsAscii(s)
    ensures DecodeBase64String(s) == s
  {
  }

  datatype BackupRecord = BackupRecord(timestamp: int, oldIds: map<string, string>, formatVersion: string)

  /** `backup_old_ids(old_ids)` at `time.time()` = `now` (whole seconds). */
  function BackupOldIds(oldIds: map<string, string>, now: int): (r: BackupRecord)
    ensures r.oldIds == oldIds && r.timestamp == now && r.formatVersion == "1.0"
  {
    BackupRecord(now, oldIds, "1.0")
  }
}
