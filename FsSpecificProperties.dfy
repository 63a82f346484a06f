/**
 * Properties that relate several members of the filesystem-specific layer:
 * the factory and the type tokens, the commands and their inputs, and the
 * ext4 classifier and the exit-status conventions of fsck.ext4.
 */
module FsSpecificProperties {
  import opened Wrappers
  import opened Text
  import opened FsSpecific

  /******************************* Identification *******************************/

  /** The four assumed type tokens are pairwise distinct. */
  lemma FsTypeStringsDistinct(k1: FsKind, k2: FsKind)
    ensures GetFsTypeString(k1) == GetFsTypeString(k2) ==> k1 == k2
  {
  }

  /** The factory returns, for a variant's own token, that variant. */
  lemma FactoryIdentifies(kind: FsKind)
    ensures GetFsSpecific(GetFsTypeString(kind)) == Some(kind)
  {
  }

  /** The factory accepts exactly the four tokens. */
  lemma FactoryAcceptsOnlyTokens(fsType: string)
    ensures GetFsSpecific(fsType).Some? <==> fsType in {Ext4FsType, BtrfsFsType, F2fsFsType, XfsFsType}
  {
  }

  /** Comparison is exact: the empty string, case variants and padded tokens are rejected. */
  lemma FactoryRejectsNearMisses()
    ensures GetFsSpecific("") == None
    ensures GetFsSpecific("EXT4") == None && GetFsSpecific("Ext4") == None
    ensures GetFsSpecific("BTRFS") == None && GetFsSpecific("F2FS") == None && GetFsSpecific("XFS") == None
    ensures GetFsSpecific("ext4 ") == None && GetFsSpecific(" xfs") == None
    ensures GetFsSpecific("ext3") == None
  {
  }

  /****************************** Command builders ******************************/

  /** A mkfs command contains the type token and the device path. */
  lemma MkfsCommandMentionsInputs(kind: FsKind, devicePath: string)
    ensures Contains(GetMkfsCommand(kind, devicePath), GetFsTypeString(kind))
    ensures Contains(GetMkfsCommand(kind, devicePath), devicePath)
  {
  }

  /** The character right after "mkfs -t " is the first character of the type token. */
  lemma MkfsCommandTokenStart(kind: FsKind, devicePath: string)
    ensures GetMkfsCommand(kind, devicePath)[|MkfsStart|] == GetFsTypeString(kind)[0]
  {
  }

  /** The four type tokens already differ in their first character. */
  lemma FsTypeStringsDifferFirst(k1: FsKind, k2: FsKind)
    requires GetFsTypeString(k1)[0] == GetFsTypeString(k2)[0]
    ensures k1 == k2
  {
  }

  /** The mkfs command determines both the variant and the device path. */
  lemma {:induction false} MkfsCommandDeterminesInputs(k1: FsKind, p1: string, k2: FsKind, p2: string)
    requires GetMkfsCommand(k1, p1) == GetMkfsCommand(k2, p2)
    ensures k1 == k2 && p1 == p2
  {
    MkfsCommandTokenStart(k1, p1);
    MkfsCommandTokenStart(k2, p2);
    FsTypeStringsDifferFirst(k1, k2);
    var cmd := GetMkfsCommand(k1, p1);
    assert |p1| == |p2|;
    assert p1 == cmd[|cmd| - |p1|..] == p2;
  }

  /** Every check command contains the path it checks. */
  lemma FsckCommandMentionsPath(kind: FsKind, fsPath: string)
    ensures Contains(GetFsckCommand(kind, fsPath), fsPath)
  {
  }

  /**
   * ext4 and f2fs are told to repair ("-y"); the btrfs and xfs commands hold
   * "-y" only where the caller's path does.
   */
  lemma FsckCommandAutoFixFlag(kind: FsKind, fsPath: string)
    ensures UsesFsck(kind) ==> Contains(GetFsckCommand(kind, fsPath), "-y")
    ensures !UsesFsck(kind) ==> (Contains(GetFsckCommand(kind, fsPath), "-y") <==> Contains(fsPath, "-y"))
  {
    var cmd := GetFsckCommand(kind, fsPath);
    match kind
    case Ext4 =>
      assert cmd[|cmd| - 2..] == FsckAutoFixArgs[4..];
      assert OccursAt("-y", cmd, |cmd| - 2);
    case F2fs =>
      assert cmd[|cmd| - 2..] == FsckAutoFixArgs[4..];
      assert OccursAt("-y", cmd, |cmd| - 2);
    case Btrfs =>
      assert cmd == BtrfsFsckCommand + fsPath;
      ContainsPastFreePrefix(BtrfsFsckCommand, fsPath, "-y");
    case Xfs =>
      assert cmd == XfsFsckCommand + fsPath;
      ContainsPastFreePrefix(XfsFsckCommand, fsPath, "-y");
  }

  /** The check command determines both the variant and the path. */
  lemma {:induction false} FsckCommandDeterminesInputs(k1: FsKind, p1: string, k2: FsKind, p2: string)
    requires GetFsckCommand(k1, p1) == GetFsckCommand(k2, p2)
    ensures k1 == k2 && p1 == p2
  {
    var cmd := GetFsckCommand(k1, p1);
    // "fsck …", "btrfs …" and "xfs_repair …" differ in their first character,
    // and the two fsck variants in the first character of the type token.
    assert cmd[0] == (if UsesFsck(k1) then 'f' else if k1 == Btrfs then 'b' else 'x');
    assert cmd[0] == (if UsesFsck(k2) then 'f' else if k2 == Btrfs then 'b' else 'x');
    if UsesFsck(k1) {
      assert cmd[|FsckCommandStart|] == GetFsTypeString(k1)[0] == GetFsTypeString(k2)[0];
      assert k1 == k2;
      var start := |FsckCommandStart| + |GetFsTypeString(k1)| + 1;
      assert p1 == cmd[start..start + |p1|] == p2;
    } else {
      assert k1 == k2;
      assert p1 == cmd[|cmd| - |p1|..] == p2;
    }
  }

  /**************************** Exit-code classifiers ****************************/

  /** The exit-status conditions of fsck.ext4, one bit each. */
  datatype Ext4ExitFlag =
    | ErrorsCorrected     // 1
    | RebootNeeded        // 2: errors corrected, the system should be rebooted
    | ErrorsUncorrected   // 4
    | OperationalError    // 8
    | UsageError          // 16
    | CheckCancelled      // 32: cancelled by user request
    | LibraryError        // 128: shared-library error

  function FlagBit(f: Ext4ExitFlag): CInt {
    match f
    case ErrorsCorrected => 1
    case RebootNeeded => 2
    case ErrorsUncorrected => 4
    case OperationalError => 8
    case UsageError => 16
    case CheckCancelled => 32
    case LibraryError => 128
  }

  predicate Raised(returnCode: CInt, f: Ext4ExitFlag) {
    (returnCode & FlagBit(f)) != 0
  }

  /** Conditions in which the checker did not get to a verdict about the filesystem. */
  predicate IsSevere(f: Ext4ExitFlag) {
    f == OperationalError || f == UsageError || f == CheckCancelled || f == LibraryError
  }

  /** No severe condition is raised exactly when the severe bits are all clear. */
  lemma NoSevereFlagIff(returnCode: CInt)
    ensures (forall f :: IsSevere(f) ==> !Raised(returnCode, f)) <==> (returnCode & Ext4SevereMask) == 0
  {
    if (returnCode & Ext4SevereMask) != 0 {
      assert Raised(returnCode, OperationalError) || Raised(returnCode, UsageError)
             || Raised(returnCode, CheckCancelled) || Raised(returnCode, LibraryError);
    }
  }

  /** No documented condition is raised exactly when the known bits are all clear. */
  lemma NoFlagIff(returnCode: CInt)
    ensures (forall f :: !Raised(returnCode, f)) <==> (returnCode & Ext4KnownMask) == 0
  {
    if (returnCode & Ext4KnownMask) != 0 {
      assert Raised(returnCode, ErrorsCorrected) || Raised(returnCode, RebootNeeded)
             || Raised(returnCode, ErrorsUncorrected) || Raised(returnCode, OperationalError)
             || Raised(returnCode, UsageError) || Raised(returnCode, CheckCancelled)
             || Raised(returnCode, LibraryError);
    }
  }

  /**
   * The ext4 classifier in terms of the documented conditions: a severe
   * condition gives `Check` whatever else is raised; otherwise uncorrected
   * errors give `CheckUnfixed`; otherwise corrected errors give `Fixed`;
   * a status with no documented condition is `Clean` when zero and `Other`
   * when not.
   */
  lemma Ext4FsckReturnByFlags(returnCode: CInt)
    ensures Ext4FsckReturn(returnCode) == Check <==>
              exists f :: IsSevere(f) && Raised(returnCode, f)
    ensures Ext4FsckReturn(returnCode) == CheckUnfixed <==>
              (forall f :: IsSevere(f) ==> !Raised(returnCode, f)) && Raised(returnCode, ErrorsUncorrected)
    ensures Ext4FsckReturn(returnCode) == Fixed <==>
              (forall f :: IsSevere(f) ==> !Raised(returnCode, f))
              && !Raised(returnCode, ErrorsUncorrected)
              && (Raised(returnCode, ErrorsCorrected) || Raised(returnCode, RebootNeeded))
    ensures Ext4FsckReturn(returnCode) == Other <==>
              returnCode != 0 && forall f :: !Raised(returnCode, f)
  {
    NoSevereFlagIff(returnCode);
    NoFlagIff(returnCode);
  }

  /** Once a severe bit is set, no other bit changes the ext4 outcome. */
  lemma Ext4SevereDominates(returnCode: CInt, more: CInt)
    requires Ext4FsckReturn(returnCode) == Check
    ensures Ext4FsckReturn(returnCode | more) == Check
  {
  }

  /** Bits outside the documented ones change the ext4 outcome only of a zero status. */
  lemma Ext4IgnoresUndocumentedBits(returnCode: CInt, extra: CInt)
    requires returnCode != 0 && (extra & Ext4KnownMask) == 0
    ensures Ext4FsckReturn(returnCode | extra) == Ext4FsckReturn(returnCode)
  {
  }

  /** Exit statuses named in the fsck.ext4 conventions and their outcomes. */
  lemma Ext4Examples()
    ensures Ext4FsckReturn(0) == Clean
    ensures Ext4FsckReturn(1) == Fixed && Ext4FsckReturn(2) == Fixed && Ext4FsckReturn(3) == Fixed
    ensures Ext4FsckReturn(4) == CheckUnfixed && Ext4FsckReturn(4 | 1) == CheckUnfixed
    ensures Ext4FsckReturn(8) == Check && Ext4FsckReturn(16) == Check
    ensures Ext4FsckReturn(32) == Check && Ext4FsckReturn(128) == Check
    ensures Ext4FsckReturn(4 | 128) == Check && Ext4FsckReturn(128 | 8) == Check
    ensures Ext4FsckReturn(0x40) == Other && Ext4FsckReturn(0x100) == Other
    ensures ToInt(0xFFFF_FFFF) == -1 && Ext4FsckReturn(0xFFFF_FFFF) == Check
    ensures ToInt(0x8000_0000) == -0x8000_0000 && Ext4FsckReturn(0x8000_0000) == Other
  {
  }

  /** The single-outcome variants at 0, 1 and -1. */
  lemma ScalarVariantExamples()
    ensures ToInt(0xFFFF_FFFF) == -1
    ensures BtrfsFsckReturn(0) == Clean && BtrfsFsckReturn(1) == CheckUnfixed
    ensures BtrfsFsckReturn(0xFFFF_FFFF) == CheckUnfixed
    ensures F2fsFsckReturn(0) == Fixed && F2fsFsckReturn(1) == Check
    ensures F2fsFsckReturn(0xFFFF_FFFF) == Check
    ensures XfsFsckReturn(0) == Fixed && XfsFsckReturn(1) == Check
    ensures XfsFsckReturn(0xFFFF_FFFF) == Check
  {
  }

  /**
   * A run as the harness drives it: resolve "ext4", build the mkfs and check
   * commands for a loop device, and classify the statuses 0, 4 and 136.
   */
  lemma Ext4EndToEnd()
    ensures GetFsSpecific("ext4") == Some(Ext4)
    ensures Contains(GetMkfsCommand(Ext4, "/dev/loop0"), "ext4")
    ensures EndsWith(GetMkfsCommand(Ext4, "/dev/loop0"), "/dev/loop0")
    ensures Contains(GetFsckCommand(Ext4, "/dev/loop0"), "/dev/loop0")
    ensures GetFsckReturn(Ext4, 0) == Clean
    ensures GetFsckReturn(Ext4, 4) == CheckUnfixed
    ensures GetFsckReturn(Ext4, 136) == Check
  {
    MkfsCommandMentionsInputs(Ext4, "/dev/loop0");
    FsckCommandMentionsPath(Ext4, "/dev/loop0");
  }
}
