/** The configuration every other module reads: the three platform base directories, the
    JetBrains and VSCode constant tables, and the backup naming format. */
module Settings {
  import opened Common
  import opened Fs
  import Codec

  datatype Platform = Win32 | Darwin | Other

  /** A base directory entry of the platform table. On Windows it is the value of an
      environment variable, and `Unset` is the empty string `os.getenv(name, "")` falls back to;
      every other entry is a path below the home directory. */
  datatype Base = Unset | At(path: Path)

  datatype PlatformPaths = PlatformPaths(config: Base, data: Base, home: Path)

  /** `os.getenv(name, "")`; `env` holds the variables that are set to a non-empty value. */
  function Getenv(env: map<string, Path>, name: string): (b: Base)
    ensures b.At? <==> name in env
    ensures b.At? ==> b.path == env[name]
  {
    if name in env then At(env[name]) else Unset
  }

  /** `get_platform_paths()`: the config, data and home roots of the running platform. */
  function GetPlatformPaths(platform: Platform, env: map<string, Path>, home: Path): (pp: PlatformPaths)
    ensures pp.home == home
    ensures platform == Win32 ==>
      pp.config == Getenv(env, "APPDATA") && pp.data == Getenv(env, "LOCALAPPDATA")
    ensures platform == Darwin ==>
      pp.config == pp.data && pp.config.At? && pp.config.path == home + ["Library", "Application Support"]
    ensures platform == Other ==>
      pp.config == At(home + [".config"]) && pp.data == At(home + [".local", "share"])
    ensures platform != Win32 ==>
      pp.config.At? && pp.data.At? && IsUnder(pp.config.path, home) && IsUnder(pp.data.path, home)
  {
    match platform
    case Win32 => PlatformPaths(Getenv(env, "APPDATA"), Getenv(env, "LOCALAPPDATA"), home)
    case Darwin =>
      PlatformPaths(At(home + ["Library", "Application Support"]), At(home + ["Library", "Application Support"]), home)
    case Other => PlatformPaths(At(home + [".config"]), At(home + [".local", "share"]), home)
  }

  /** `Path(base)`, made absolute: the empty string names the working directory. */
  function Resolve(b: Base, cwd: Path): Path {
    match b
    case Unset => cwd
    case At(p) => p
  }

  // ----- JetBrains -----

  /** The files that hold a JetBrains installation's device and user identifiers. */
  const IdFiles: seq<string> := ["PermanentDeviceId", "PermanentUserId"]

  /** The same names in base64, kept for compatibility with an older tool's layout. */
  const IdFilesEncoded: seq<string> := ["UGVybWFuZW50RGV2aWNlSWQ=", "UGVybWFuZW50VXNlcklk"]

  const JetBrainsDirName := "JetBrains"

  /** The glob patterns a recursive database search uses. */
  const DatabasePatterns: seq<string> := ["*.db", "*.sqlite", "*.sqlite3"]

  /** The `LIKE` patterns JetBrains databases are cleaned with. */
  const JetBrainsAugmentPatterns: seq<string> :=
    ["%augment%", "%Augment%", "%AUGMENT%", "%device%", "%user%", "%machine%", "%telemetry%"]

  // ----- VSCode -----

  const TelemetryKeys: seq<string> :=
    ["telemetry.machineId", "telemetry.devDeviceId", "telemetry.macMachineId", "telemetry.sqmId"]

  /** Storage locations relative to a variant directory: global storage directories,
      workspace storage directories (whose children are enumerated), and the directories
      that may hold a `machineId` file. */
  const GlobalPatterns: seq<Path> := [["User", "globalStorage"], ["data", "User", "globalStorage"]]
  const WorkspacePatterns: seq<Path> := [["User", "workspaceStorage"], ["data", "User", "workspaceStorage"]]
  const MachineIdPatterns: seq<Path> := [["User"], ["data"]]

  const VscodeVariants: seq<string> := ["Code", "Code - Insiders", "VSCodium", "Cursor", "code-server"]

  /** The state databases of a storage directory, the live one first. */
  const VscodeDatabaseFiles: seq<string> := ["state.vscdb", "state.vscdb.backup"]

  // ----- backups -----

  const TimestampFormat := "%Y%m%d_%H%M%S"
  const BackupExtension := ".bak"
  const MaxBackups := 10

  predicate AllDigits(s: string) {
    forall i :: 0 <= i < |s| ==> IsDigit(s[i])
  }

  /** Eight digits, an underscore, six digits: what the backup-name parser strips again. */
  predicate IsTimestamp(s: string) {
    |s| == 15 && AllDigits(s[..8]) && s[8] == '_' && AllDigits(s[9..])
  }

  /** `time.strftime(TimestampFormat)`: year, month, day, underscore, hour, minute, second,
      each zero-padded to its field width. */
  function Timestamp(dt: DateTime): (r: string)
    requires dt.Valid()
    ensures IsTimestamp(r)
    ensures r[..4] == PadDigits(dt.year, 4) && r[4..6] == PadDigits(dt.month, 2) && r[6..8] == PadDigits(dt.day, 2)
    ensures r[9..11] == PadDigits(dt.hour, 2) && r[11..13] == PadDigits(dt.minute, 2) && r[13..] == PadDigits(dt.second, 2)
  {
    var date := PadDigits(dt.year, 4) + PadDigits(dt.month, 2) + PadDigits(dt.day, 2);
    var time := PadDigits(dt.hour, 2) + PadDigits(dt.minute, 2) + PadDigits(dt.second, 2);
    var r := date + "_" + time;
    assert r[..8] == date && r[9..] == time;
    r
  }

  // ----- the encoded identifier file names -----

  /** Every encoded name is the base64 encoding (section 4 of RFC 4648) of the ASCII name at
      the same index, so decoding it gives the name back. */
  lemma IdFilesEncodedMatch()
    ensures |IdFilesEncoded| == |IdFiles| == 2
    ensures forall i :: 0 <= i < |IdFiles| ==> Codec.IsAscii(IdFiles[i])
    ensures forall i :: 0 <= i < |IdFiles| ==> IdFilesEncoded[i] == Codec.Encode(Codec.AsciiBytes(IdFiles[i]))
    ensures forall i :: 0 <= i < |IdFiles| ==> Codec.B64Decode(IdFilesEncoded[i]) == Some(Codec.AsciiBytes(IdFiles[i]))
  {
    forall i | 0 <= i < |IdFiles|
      ensures Codec.IsAscii(IdFiles[i]) && IdFilesEncoded[i] == Codec.Encode(Codec.AsciiBytes(IdFiles[i])) &&
        Codec.B64Decode(IdFilesEncoded[i]) == Some(Codec.AsciiBytes(IdFiles[i]))
    {
      if i == 0 {
        DeviceIdNameEncoded(IdFiles[0], IdFilesEncoded[0]);
      } else {
        UserIdNameEncoded(IdFiles[1], IdFilesEncoded[1]);
      }
    }
  }

  lemma DeviceIdNameEncoded(name: string, encoded: string)
    requires name == "PermanentDeviceId" && encoded == "UGVybWFuZW50RGV2aWNlSWQ="
    ensures Codec.IsAscii(name)
    ensures Codec.Encode(Codec.AsciiBytes(name)) == encoded
    ensures Codec.B64Decode(encoded) == Some(Codec.AsciiBytes(name))
  {
    DeviceIdNameAscii(name);
    var bs := Codec.AsciiBytes(name);
    DeviceIdNameBytes(bs);
    DeviceIdNameDecodes(bs, encoded);
  }

  /** The ASCII bytes of `PermanentDeviceId`, one by one. */
  lemma DeviceIdNameAscii(name: string)
    requires name == "PermanentDeviceId"
    ensures Codec.IsAscii(name)
    ensures var bs := Codec.AsciiBytes(name);
      (|bs| == 17 &&
      bs[0] == 80 && bs[1] == 101 && bs[2] == 114 && bs[3] == 109 && bs[4] == 97 && bs[5] == 110 &&
      bs[6] == 101 && bs[7] == 110 && bs[8] == 116 && bs[9] == 68 && bs[10] == 101 && bs[11] == 118 &&
      bs[12] == 105 && bs[13] == 99 && bs[14] == 101 && bs[15] == 73 && bs[16] == 100)
  {
  }

  lemma DeviceIdNameDecodes(bs: seq<byte>, encoded: string)
    requires encoded == "UGVybWFuZW50RGV2aWNlSWQ="
    requires Codec.Encode(bs) == "UGVy" + ("bWFu" + ("ZW50" + ("RGV2" + ("aWNl" + "SWQ="))))
    ensures Codec.Encode(bs) == encoded && Codec.B64Decode(encoded) == Some(bs)
  {
    assert "UGVy" + ("bWFu" + ("ZW50" + ("RGV2" + ("aWNl" + "SWQ=")))) == encoded;
    Codec.B64DecodeEncode(bs);
  }

  lemma UserIdNameEncoded(name: string, encoded: string)
    requires name == "PermanentUserId" && encoded == "UGVybWFuZW50VXNlcklk"
    ensures Codec.IsAscii(name)
    ensures Codec.Encode(Codec.AsciiBytes(name)) == encoded
    ensures Codec.B64Decode(encoded) == Some(Codec.AsciiBytes(name))
  {
    UserIdNameAscii(name);
    var bs := Codec.AsciiBytes(name);
    UserIdNameBytes(bs);
    UserIdNameDecodes(bs, encoded);
  }

  /** The ASCII bytes of `PermanentUserId`, one by one. */
  lemma UserIdNameAscii(name: string)
    requires name == "PermanentUserId"
    ensures Codec.IsAscii(name)
    ensures var bs := Codec.AsciiBytes(name);
      (|bs| == 15 &&
      bs[0] == 80 && bs[1] == 101 && bs[2] == 114 && bs[3] == 109 && bs[4] == 97 && bs[5] == 110 &&
      bs[6] == 101 && bs[7] == 110 && bs[8] == 116 && bs[9] == 85 && bs[10] == 115 && bs[11] == 101 &&
      bs[12] == 114 && bs[13] == 73 && bs[14] == 100)
  {
  }

  lemma UserIdNameDecodes(bs: seq<byte>, encoded: string)
    requires encoded == "UGVybWFuZW50VXNlcklk"
    requires Codec.Encode(bs) == "UGVy" + ("bWFu" + ("ZW50" + ("VXNl" + "cklk")))
    ensures Codec.Encode(bs) == encoded && Codec.B64Decode(encoded) == Some(bs)
  {
    assert "UGVy" + ("bWFu" + ("ZW50" + ("VXNl" + "cklk"))) == encoded;
    Codec.B64DecodeEncode(bs);
  }

  // The encodings above are computed three bytes at a time, on bytes given one by one rather
  // than as a literal sequence, which keeps each proof small.

  /** Encoding a known group in front of the encoding of what follows it. */
  lemma EncodeFrom(bs: seq<byte>, k: nat, g: string, s: string)
    requires k + 3 <= |bs| && Codec.EncodeGroup(bs[k], bs[k + 1], bs[k + 2]) == g && Codec.Encode(bs[k + 3..]) == s
    ensures Codec.Encode(bs[k..]) == g + s
  {
    assert bs[k..][3..] == bs[k + 3..];
  }

  lemma DeviceIdNameBytes(bs: seq<byte>)
    requires |bs| == 17
    requires bs[0] == 80 && bs[1] == 101 && bs[2] == 114 && bs[3] == 109 && bs[4] == 97 && bs[5] == 110
    requires bs[6] == 101 && bs[7] == 110 && bs[8] == 116 && bs[9] == 68 && bs[10] == 101 && bs[11] == 118
    requires bs[12] == 105 && bs[13] == 99 && bs[14] == 101 && bs[15] == 73 && bs[16] == 100
    ensures Codec.Encode(bs) == "UGVy" + ("bWFu" + ("ZW50" + ("RGV2" + ("aWNl" + "SWQ="))))
  {
    assert Codec.Encode(bs[15..]) == "SWQ=" by {
      assert bs[15..] == [73, 100];
      assert 73 / 4 == 18 && (73 % 4) * 16 + 100 / 16 == 22 && (100 % 16) * 4 == 16;
    }
    GroupaWNl();
    EncodeFrom(bs, 12, "aWNl", "SWQ=");
    GroupRGV2();
    EncodeFrom(bs, 9, "RGV2", "aWNl" + "SWQ=");
    GroupZW50();
    EncodeFrom(bs, 6, "ZW50", "RGV2" + ("aWNl" + "SWQ="));
    GroupbWFu();
    EncodeFrom(bs, 3, "bWFu", "ZW50" + ("RGV2" + ("aWNl" + "SWQ=")));
    GroupUGVy();
    EncodeFrom(bs, 0, "UGVy", "bWFu" + ("ZW50" + ("RGV2" + ("aWNl" + "SWQ="))));
    assert bs[0..] == bs;
  }

  lemma UserIdNameBytes(bs: seq<byte>)
    requires |bs| == 15
    requires bs[0] == 80 && bs[1] == 101 && bs[2] == 114 && bs[3] == 109 && bs[4] == 97 && bs[5] == 110
    requires bs[6] == 101 && bs[7] == 110 && bs[8] == 116 && bs[9] == 85 && bs[10] == 115 && bs[11] == 101
    requires bs[12] == 114 && bs[13] == 73 && bs[14] == 100
    ensures Codec.Encode(bs) == "UGVy" + ("bWFu" + ("ZW50" + ("VXNl" + "cklk")))
  {
    assert bs[15..] == [];
    Groupcklk();
    EncodeFrom(bs, 12, "cklk", "");
    GroupVXNl();
    EncodeFrom(bs, 9, "VXNl", "cklk");
    GroupZW50();
    EncodeFrom(bs, 6, "ZW50", "VXNl" + "cklk");
    GroupbWFu();
    EncodeFrom(bs, 3, "bWFu", "ZW50" + ("VXNl" + "cklk"));
    GroupUGVy();
    EncodeFrom(bs, 0, "UGVy", "bWFu" + ("ZW50" + ("VXNl" + "cklk")));
    assert bs[0..] == bs;
  }

  lemma GroupUGVy()
    ensures Codec.EncodeGroup(80, 101, 114) == "UGVy"
  {
    assert 80 / 4 == 20 && (80 % 4) * 16 + 101 / 16 == 6 && (101 % 16) * 4 + 114 / 64 == 21 && 114 % 64 == 50;
  }

  lemma GroupbWFu()
    ensures Codec.EncodeGroup(109, 97, 110) == "bWFu"
  {
    assert 109 / 4 == 27 && (109 % 4) * 16 + 97 / 16 == 22 && (97 % 16) * 4 + 110 / 64 == 5 && 110 % 64 == 46;
  }

  lemma GroupZW50()
    ensures Codec.EncodeGroup(101, 110, 116) == "ZW50"
  {
    assert 101 / 4 == 25 && (101 % 4) * 16 + 110 / 16 == 22 && (110 % 16) * 4 + 116 / 64 == 57 && 116 % 64 == 52;
  }

  lemma GroupRGV2()
    ensures Codec.EncodeGroup(68, 101, 118) == "RGV2"
  {
    assert 68 / 4 == 17 && (68 % 4) * 16 + 101 / 16 == 6 && (101 % 16) * 4 + 118 / 64 == 21 && 118 % 64 == 54;
  }

  lemma GroupaWNl()
    ensures Codec.EncodeGroup(105, 99, 101) == "aWNl"
  {
    assert 105 / 4 == 26 && (105 % 4) * 16 + 99 / 16 == 22 && (99 % 16) * 4 + 101 / 64 == 13 && 101 % 64 == 37;
  }

  lemma GroupVXNl()
    ensures Codec.EncodeGroup(85, 115, 101) == "VXNl"
  {
    assert 85 / 4 == 21 && (85 % 4) * 16 + 115 / 16 == 23 && (115 % 16) * 4 + 101 / 64 == 13 && 101 % 64 == 37;
  }

  lemma Groupcklk()
    ensures Codec.EncodeGroup(114, 73, 100) == "cklk"
  {
    assert 114 / 4 == 28 && (114 % 4) * 16 + 73 / 16 == 36 && (73 % 16) * 4 + 100 / 64 == 37 && 100 % 64 == 36;
  }
}
