# Filesystem-specific layer of the CrashMonkey harness, in Dafny

CrashMonkey's harness formats a device, remounts it after a crash has been
replayed, runs the filesystem's checker and then has to make sense of the
checker's exit status. `code/harness/FsSpecific.cpp` holds the per-filesystem
part of that work for ext4, btrfs, f2fs and xfs:

- a factory, `GetFsSpecific`, that turns a type string into one of the four
  variants, or NULL;
- per variant, the text of the mkfs command, the mount options to use after a
  replay, the text of the check command, and the type token itself;
- per variant, `GetFsckReturn`, which folds the checker's exit status into the
  harness-wide outcome `Clean`, `Fixed`, `CheckUnfixed`, `Check` or `Other`.
  For ext4 this decodes the exit-status bits that `fsck.ext4` documents,
  most severe first. The other three variants only test for zero.

Everything in the file is pure, and so is the model.

- `FsKind` is the closed set of variants. The C++ subclasses that the factory
  allocates become values of this datatype, and the factory returns an
  `Option<FsKind>`.
- Each per-variant method is a function that matches on `FsKind`. Each source
  classifier keeps its own function. The f2fs and xfs classifiers have the same
  body, but the source gives different reasons for mapping 0 to `Fixed`.
- `return_code` is a C `int` and is modelled as `bv32`, its two's-complement
  bit pattern, so `&` tests the same bits as in C. `ToInt` gives the signed
  value a pattern stands for, which is how negative statuses such as -1 are
  written down.
- The type tokens `"ext4"`, `"btrfs"`, `"f2fs"` and `"xfs"` are declared in
  `FsSpecific.h`. That header is not part of this model, so these values are
  assumed. `FsTypeStringsDistinct` shows they are pairwise distinct, and the
  factory's correctness rests on that.

Files:

- `Wrappers.dfy`: the `Option` datatype.
- `Text.dfy`: string predicates (`OccursAt`, `Contains`, `StartsWith`,
  `EndsWith`) and a lemma about occurrences across a concatenation.
- `FsSpecific.dfy`: the model of `FsSpecific.cpp`.
- `FsSpecificProperties.dfy`: lemmas that relate several members of the model:
  - the factory and the tokens;
  - the commands and the inputs they embed;
  - the ext4 classifier against the documented `fsck.ext4` conditions;
  - one run as the harness drives it.

Only the ext4 and f2fs check commands append `-- -y` (FsSpecific.cpp:51 and
:129). The btrfs and xfs commands (FsSpecific.cpp:95 and :164) carry no
auto-fix flag.

## Model

| member | source | states |
|---|---|---|
| `FsSpecific.GetFsSpecific` | code/harness/FsSpecific.cpp:23-35 | a variant is returned only for an exact match of its own type token; the result is None exactly when the string is nobody's token |
| `FsSpecific.GetFsTypeString` | code/harness/FsSpecific.cpp:79-178 | each variant's token is non-empty and has no blank, so it is one word of the command lines it is embedded in |
| `FsSpecific.GetMkfsCommand` | code/harness/FsSpecific.cpp:41-156 | the command starts with "mkfs -t ", then has the type token and a blank, then the ext4-only lazy-init options and a blank, and ends with the device path; its length is the sum of those parts, so nothing else is in it |
| `FsSpecific.GetPostReplayMntOpts` | code/harness/FsSpecific.cpp:46-161 | the options are non-empty for ext4 only, where they are "errors=remount-ro" |
| `FsSpecific.GetFsckCommand` | code/harness/FsSpecific.cpp:50-165 | ext4 and f2fs: "fsck -T -t ", the token and a blank, the path, then " -- -y" at the end. btrfs: "btrfs check " then the path. xfs: "xfs_repair " then the path. Each has exactly that length |
| `FsSpecific.Ext4FsckReturn` | code/harness/FsSpecific.cpp:54-77 | `Check` exactly when one of the bits 0x8, 0x10, 0x20, 0x80 is set. With none of those, `CheckUnfixed` exactly when 0x4 is set. With none of those, `Fixed` exactly when 0x1 or 0x2 is set. `Clean` exactly for 0. `Other` exactly for a non-zero status with none of the seven bits |
| `FsSpecific.BtrfsFsckReturn` | code/harness/FsSpecific.cpp:98-111 | `Clean` exactly for 0, `CheckUnfixed` exactly for every other status |
| `FsSpecific.F2fsFsckReturn` | code/harness/FsSpecific.cpp:132-146 | `Fixed` exactly for 0, `Check` exactly for every other status; never `Clean` |
| `FsSpecific.XfsFsckReturn` | code/harness/FsSpecific.cpp:167-175 | `Fixed` exactly for 0, `Check` exactly for every other status; never `Clean` |
| `FsSpecific.GetFsckReturn` | code/harness/FsSpecific.cpp:54-175 | no variant calls a non-zero status `Clean`. A zero status is `Clean` for ext4 and btrfs and `Fixed` for f2fs and xfs. Only ext4 can answer `Other`. A non-zero status is `CheckUnfixed` for btrfs and `Check` for f2fs and xfs |
| `FsSpecific.ToInt` | code/harness/FsSpecific.cpp:54-55 | the C `int` value of a 32-bit pattern is in range, is negative exactly when the top bit is set, and is zero only for the zero pattern |
| `FsSpecificProperties.FsTypeStringsDistinct` | code/harness/FsSpecific.cpp:79-178 | two variants with the same type token are the same variant |
| `FsSpecificProperties.FactoryIdentifies` | code/harness/FsSpecific.cpp:23-35 | given a variant's own token, the factory returns that variant, so the factory and `GetFsTypeString` never drift apart |
| `FsSpecificProperties.FactoryAcceptsOnlyTokens` | code/harness/FsSpecific.cpp:23-35 | the factory returns a variant exactly for the four tokens |
| `FsSpecificProperties.FactoryRejectsNearMisses` | code/harness/FsSpecific.cpp:23-35 | the empty string, upper-case and mixed-case tokens, padded tokens and "ext3" all give None |
| `FsSpecificProperties.MkfsCommandMentionsInputs` | code/harness/FsSpecific.cpp:41-156 | every mkfs command contains its type token and its device path |
| `FsSpecificProperties.MkfsCommandDeterminesInputs` | code/harness/FsSpecific.cpp:41-156 | two equal mkfs commands come from the same variant and the same device path |
| `FsSpecificProperties.FsckCommandMentionsPath` | code/harness/FsSpecific.cpp:50-165 | every check command contains the path it checks |
| `FsSpecificProperties.FsckCommandAutoFixFlag` | code/harness/FsSpecific.cpp:50-165 | the ext4 and f2fs check commands contain "-y". The btrfs and xfs commands contain "-y" if and only if the caller's path does |
| `FsSpecificProperties.FsckCommandDeterminesInputs` | code/harness/FsSpecific.cpp:50-165 | two equal check commands come from the same variant and the same path |
| `FsSpecificProperties.Ext4FsckReturnByFlags` | code/harness/FsSpecific.cpp:56-76 | the ext4 outcome in terms of the fsck.ext4 conditions. Any of operational error, usage error, cancelled or shared-library error gives `Check`. Otherwise errors left uncorrected give `CheckUnfixed`. Otherwise errors corrected, with or without reboot, give `Fixed`. A non-zero status with no documented condition gives `Other` |
| `FsSpecificProperties.Ext4SevereDominates` | code/harness/FsSpecific.cpp:57-61 | setting more bits in a status that gives `Check` still gives `Check` |
| `FsSpecificProperties.Ext4IgnoresUndocumentedBits` | code/harness/FsSpecific.cpp:57-76 | adding undocumented bits (0x40, 0x100 and above) to a non-zero status leaves the ext4 outcome unchanged |
| `FsSpecificProperties.Ext4Examples` | code/harness/FsSpecific.cpp:54-77 | ext4 outcomes for 0, 1, 2, 3, 4, 5, 8, 16, 32, 128, 4\|128, 136, 0x40, 0x100, -1 and the most negative int |
| `FsSpecificProperties.ScalarVariantExamples` | code/harness/FsSpecific.cpp:98-175 | btrfs, f2fs and xfs outcomes for 0, 1 and -1 |
| `FsSpecificProperties.Ext4EndToEnd` | code/harness/FsSpecific.cpp:23-77 | "ext4" resolves to ext4. Its mkfs command for /dev/loop0 names ext4 and ends with the device, and its check command names the device. The statuses 0, 4 and 136 classify as `Clean`, `CheckUnfixed` and `Check` |

## Left out

- Heap allocation and ownership: `GetFsSpecific` returns a value in an
  `Option` instead of a `new`-allocated object. Allocation failure and the
  error-handling TODO at line 24 are not modelled.
- `FsSpecific.h` is not part of this model. The `kFsType` values are assumed
  constants. `ErrorType` is a datatype with no order. An order is never used in
  `FsSpecific.cpp`, so none is claimed.
- Running the commands: they are text only. Shell parsing, process execution,
  exit-status capture and devices belong to other parts of the harness.
- The out-of-line `constexpr` definitions (lines 39, 84, 118, 153) only give
  the constants linkage and have no behaviour.
- There is nothing to model for concurrency or floating point.
- FsSpecific.ToInt: only the direction from bit pattern to signed value is
  modelled. A C `int` argument is written as its 32-bit pattern (for example
  0xFFFF_FFFF for -1), and no function converts a signed value back.
