/**
 * The filesystem-specific layer of the crash-consistency harness
 * (code/harness/FsSpecific.cpp). Every supported filesystem is one variant of
 * `FsKind`; the per-variant methods of the C++ classes are functions that
 * match on the variant. All of them are pure: the commands are only text, and
 * the checker's exit status is classified without looking at anything else.
 */
module FsSpecific {
  import opened Wrappers
  import opened Text

  /** The four filesystem behaviours (Ext4FsSpecific … XfsFsSpecific). */
  datatype FsKind = Ext4 | Btrfs | F2fs | Xfs

  /** FileSystemTestResult::ErrorType, the harness-wide checker outcome. */
  datatype ErrorType = Clean | Fixed | CheckUnfixed | Check | Other

  /** A C `int`, kept as its 32-bit two's-complement pattern so that `&` behaves as in C. */
  type CInt = bv32

  // Type tokens: the kFsType members declared in FsSpecific.h (assumed values).
  const Ext4FsType: string := "ext4"
  const BtrfsFsType: string := "btrfs"
  const F2fsFsType: string := "f2fs"
  const XfsFsType: string := "xfs"

  // The file-local command fragments.
  const MkfsStart: string := "mkfs -t "
  const FsckCommandStart: string := "fsck -T -t "
  const Ext4RemountOpts: string := "errors=remount-ro"
  /** Disables lazy inode-table and journal initialisation. */
  const Ext4MkfsOpts: string := "-E lazy_itable_init=0,lazy_journal_init=0"
  const BtrfsFsckCommand: string := "btrfs check "
  const XfsFsckCommand: string := "xfs_repair "
  /** What the ext4 and f2fs check commands append after the path: answer yes to every repair. */
  const FsckAutoFixArgs: string := " -- -y"

  /*************************** Signed view of a C int ***************************/

  predicate IsCInt(i: int) {
    -0x8000_0000 <= i < 0x8000_0000
  }

  /** The value a C `int` with this bit pattern has; only zero maps to zero. */
  function ToInt(b: CInt): (i: int)
    ensures IsCInt(i)
    ensures (i < 0) == (b >= 0x8000_0000)
    ensures i == 0 <==> b == 0
  {
    if b < 0x8000_0000 then b as int else b as int - 0x1_0000_0000
  }

  /******************************* Identification *******************************/

  /** GetFsTypeString: the token that names the variant and that the factory accepts. */
  function GetFsTypeString(kind: FsKind): (s: string)
    ensures |s| > 0 && ' ' !in s
  {
    match kind
    case Ext4 => Ext4FsType
    case Btrfs => BtrfsFsType
    case F2fs => F2fsFsType
    case Xfs => XfsFsType
  }

  /**
   * GetFsSpecific: the variant whose token equals `fsType` exactly, or None
   * (the C++ NULL) when there is none.
   */
  function GetFsSpecific(fsType: string): (r: Option<FsKind>)
    ensures r.Some? ==> GetFsTypeString(r.value) == fsType
    ensures r.None? <==> forall kind :: GetFsTypeString(kind) != fsType
  {
    if fsType == Ext4FsType then Some(Ext4)
    else if fsType == BtrfsFsType then Some(Btrfs)
    else if fsType == F2fsFsType then Some(F2fs)
    else if fsType == XfsFsType then Some(Xfs)
    else None
  }

  /****************************** Command builders ******************************/

  /** The variant-specific mkfs options and their trailing blank (only ext4 has any). */
  function MkfsOptsPart(kind: FsKind): string {
    if kind == Ext4 then Ext4MkfsOpts + " " else ""
  }

  /**
   * GetMkfsCommand: "mkfs -t", the type token, the ext4 options if any, and
   * the device path, each part separated by one blank.
   */
  function GetMkfsCommand(kind: FsKind, devicePath: string): (cmd: string)
    ensures StartsWith(cmd, MkfsStart)
    ensures OccursAt(GetFsTypeString(kind) + " ", cmd, |MkfsStart|)
    ensures OccursAt(MkfsOptsPart(kind), cmd, |MkfsStart| + |GetFsTypeString(kind)| + 1)
    ensures EndsWith(cmd, devicePath)
    ensures |cmd| == |MkfsStart| + |GetFsTypeString(kind)| + 1 + |MkfsOptsPart(kind)| + |devicePath|
  {
    match kind
    case Ext4 => MkfsStart + Ext4FsType + " " + Ext4MkfsOpts + " " + devicePath
    case Btrfs => MkfsStart + BtrfsFsType + " " + devicePath
    case F2fs => MkfsStart + F2fsFsType + " " + devicePath
    case Xfs => MkfsStart + XfsFsType + " " + devicePath
  }

  /** GetPostReplayMntOpts: only ext4 asks for a read-only remount on error. */
  function GetPostReplayMntOpts(kind: FsKind): (opts: string)
    ensures opts != "" <==> kind == Ext4
    ensures kind == Ext4 ==> opts == Ext4RemountOpts
  {
    match kind
    case Ext4 => Ext4RemountOpts
    case Btrfs => ""
    case F2fs => ""
    case Xfs => ""
  }

  /** The variants whose checker runs through `fsck` and is told to repair. */
  predicate UsesFsck(kind: FsKind) {
    kind == Ext4 || kind == F2fs
  }

  /**
   * GetFsckCommand: ext4 and f2fs run "fsck -T -t <type> <path> -- -y";
   * btrfs runs "btrfs check <path>" and xfs "xfs_repair <path>".
   */
  function GetFsckCommand(kind: FsKind, fsPath: string): (cmd: string)
    ensures UsesFsck(kind) ==>
              StartsWith(cmd, FsckCommandStart)
              && OccursAt(GetFsTypeString(kind) + " ", cmd, |FsckCommandStart|)
              && OccursAt(fsPath, cmd, |FsckCommandStart| + |GetFsTypeString(kind)| + 1)
              && EndsWith(cmd, FsckAutoFixArgs)
              && |cmd| == |FsckCommandStart| + |GetFsTypeString(kind)| + 1 + |fsPath| + |FsckAutoFixArgs|
    ensures kind == Btrfs ==>
              StartsWith(cmd, BtrfsFsckCommand) && EndsWith(cmd, fsPath)
              && |cmd| == |BtrfsFsckCommand| + |fsPath|
    ensures kind == Xfs ==>
              StartsWith(cmd, XfsFsckCommand) && EndsWith(cmd, fsPath)
              && |cmd| == |XfsFsckCommand| + |fsPath|
  {
    match kind
    case Ext4 => FsckCommandStart + Ext4FsType + " " + fsPath + FsckAutoFixArgs
    case Btrfs => BtrfsFsckCommand + fsPath
    case F2fs => FsckCommandStart + F2fsFsType + " " + fsPath + FsckAutoFixArgs
    case Xfs => XfsFsckCommand + fsPath
  }

  /**************************** Exit-code classifiers ****************************/

  // The fsck.ext4 exit-status bits tested by Ext4FsckReturn.
  /** Operational error, usage error, cancelled by request, shared-library error. */
  const Ext4SevereMask: CInt := 0x8 | 0x10 | 0x20 | 0x80
  /** Errors left uncorrected. */
  const Ext4UncorrectedBit: CInt := 0x4
  /** Errors corrected; errors corrected and a reboot is needed. */
  const Ext4CorrectedMask: CInt := 0x1 | 0x2
  /** Every bit the classifier looks at. */
  const Ext4KnownMask: CInt := Ext4SevereMask | Ext4UncorrectedBit | Ext4CorrectedMask

  /**
   * Ext4FsckReturn: the most severe documented condition wins; zero is clean
   * and a non-zero status with none of the documented bits is `Other`.
   */
  function Ext4FsckReturn(returnCode: CInt): (r: ErrorType)
    ensures r == Check <==> returnCode & Ext4SevereMask != 0
    ensures r == CheckUnfixed <==>
              returnCode & Ext4SevereMask == 0 && returnCode & Ext4UncorrectedBit != 0
    ensures r == Fixed <==>
              returnCode & (Ext4SevereMask | Ext4UncorrectedBit) == 0 && returnCode & Ext4CorrectedMask != 0
    ensures r == Clean <==> returnCode == 0
    ensures r == Other <==> returnCode != 0 && returnCode & Ext4KnownMask == 0
  {
    if ((returnCode & 0x8) != 0) || ((returnCode & 0x10) != 0) || ((returnCode & 0x20) != 0)
       || ((returnCode & 0x80) != 0) then
      Check
    else if (returnCode & 0x4) != 0 then
      CheckUnfixed
    else if ((returnCode & 0x1) != 0) || ((returnCode & 0x2) != 0) then
      Fixed
    else if returnCode == 0 then
      Clean
    else
      Other
  }

  /** BtrfsFsckReturn: `btrfs check` only says whether it found something, and never repairs. */
  function BtrfsFsckReturn(returnCode: CInt): (r: ErrorType)
    ensures r == Clean <==> returnCode == 0
    ensures r == CheckUnfixed <==> returnCode != 0
  {
    if returnCode == 0 then Clean else CheckUnfixed
  }

  /**
   * F2fsFsckReturn: `fsck.f2fs` reports 0 once it has run, whatever it did, so 0
   * is optimistically taken as `Fixed`; anything else needs a closer look.
   */
  function F2fsFsckReturn(returnCode: CInt): (r: ErrorType)
    ensures r == Fixed <==> returnCode == 0
    ensures r == Check <==> returnCode != 0
  {
    if returnCode == 0 then Fixed else Check
  }

  /** XfsFsckReturn: `xfs_repair` repairs by default and reports 0 when it did. */
  function XfsFsckReturn(returnCode: CInt): (r: ErrorType)
    ensures r == Fixed <==> returnCode == 0
    ensures r == Check <==> returnCode != 0
  {
    if returnCode == 0 then Fixed else Check
  }

  /**
   * GetFsckReturn: the classifier of the variant. No variant reports a
   * non-zero status as `Clean`, and only ext4 has an `Other` outcome.
   */
  function GetFsckReturn(kind: FsKind, returnCode: CInt): (r: ErrorType)
    ensures r == Clean ==> returnCode == 0
    ensures returnCode == 0 ==> (r == Clean <==> (kind == Ext4 || kind == Btrfs))
    ensures returnCode == 0 ==> (r == Fixed <==> (kind == F2fs || kind == Xfs))
    ensures r == Other ==> kind == Ext4
    ensures returnCode != 0 && kind != Ext4 ==> (r == CheckUnfixed <==> kind == Btrfs)
    ensures returnCode != 0 && kind != Ext4 ==> (r == Check <==> (kind == F2fs || kind == Xfs))
  {
    match kind
    case Ext4 => Ext4FsckReturn(returnCode)
    case Btrfs => BtrfsFsckReturn(returnCode)
    case F2fs => F2fsFsckReturn(returnCode)
    case Xfs => XfsFsckReturn(returnCode)
  }
}
