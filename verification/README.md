# Freehold: a Dafny model of the encrypted SQLite store

Freehold keeps SQLite databases as sealed 4136-byte blocks in a browser's private file system, commits
through a two-slot manifest and a two-slot anchor, rotates its data key through shadow files, syncs
through version vectors over a blind relay, and exports a bundle that a second, independent program can
decrypt. This project models those parts and proves what they keep. `dafny verify dfyconfig.toml` checks
all of it.

## The modules

| file | what it models |
|---|---|
| `Bytes`, `Base64Url`, `Crypto`, `Fault` | integers as bytes, base64url, the ideal crypto interfaces, the power-loss gate |
| `BlockDevice` | `SyncAccessFile`: reads, writes, truncates and size over sealed blocks |
| `Journal`, `RollbackJournal`, `JournalWriter` | the rollback-journal replay, what a valid journal is, and a writer for it |
| `Anchor`, `Manifest`, `ManifestCodec` | the double-buffered freshness anchor, the manifest, and their byte formats |
| `Commit`, `Finalization`, `CrashSafety`, `Recovery` | `open_main_db`, the commit barrier, when it seals, crash safety over whole runs, and runs that reach its edges |
| `Reseal`, `Rotation` | re-keying a database and the rotation ceremony |
| `VersionVector`, `SyncBlob`, `Sync`, `SyncPass` | the lattice, the wire format, the distributed protocol, one `sync()` pass |
| `Envelope` | the key envelope as a state machine over byte blobs |
| `Bundle`, `Decryptor`, `Portability` | the container, the standalone decryptor, export followed by recovery |
| `Device` | capability strings and device certificates |

Code that changes state step by step is a class or a method with loops, proved against a function; the
theorems are about those functions. Protocol modules carry typed payloads inside sealed blocks;
`ManifestCodec` maps them to their byte formats and proves that a block says its payload and no other.

## Assumptions

- AEAD, MAC and signatures are ideal. A sealed block is a value that remembers its key and its
  associated data; a torn, unwritten or forged block opens under nothing. Where bytes matter
  (`Envelope`, `Portability`) the ciphers are parameters that are ideal for the finitely many keys of a run,
  and the MAC tells the bodies of a run apart (`Envelope.IdealSuitesExist`).
- Hashes are injective and never all-zero: a full-state root is the list of its leaves.
- SQLite is an environment that issues writes. The claims are about what `open_main_db` certifies, the
  replayed shadow when the journal is hot and the disk image otherwise, not about what SQLite then does.
- A transaction saves the pre-image of a page before it overwrites it, does not shrink the main file
  below its size at the start, and starts from at least one page. Writes leave no holes.
- The disk persists operations in order. A power cut keeps a prefix of them and may tear the one in flight.
- Random uuids, nonces, salts, keys and recovery codes are parameters. The key of a rotation has sealed
  nothing before. Recovery codes come normalised.
- A device runs one `sync()` pass at a time, an image it applies is durable at once, and no stored epoch
  token is left over from an old key.
- The tracked length of a main file is its whole blocks, since SQLite writes it page by page.

## What the code does differently from its own comments

- A torn main block next to a hot journal refuses the database: the replay first decrypts the whole main
  file. The comment at vfs.rs:1314-1321 expects the replay to write over it. A torn first block of the
  journal makes it dead, and then the main file must stand alone (`CrashSafety.TornBlocksVerdict`).
- The barrier seals at any finalization of a hot journal, rollbacks included. A session that finalizes
  without playing back a journal it inherited can leave a state that the next open refuses; the exact
  condition is `CrashSafety.CutAfterSeal`, and `Recovery.LossHappens` is a run that ends there.
- Cutting a rotation before its intent record leaves shadows that no recovery on the old line removes, and
  so does cutting a roll-back after it unlinked the intent (`Rotation.RollBackClearsIff`,
  `Rotation.CutStageLeavesShadow`). The live files are unharmed.
- `set_associated_filename` truncates a file before it clears its name. The fault gate treats the two as one
  step; as two, a cut between them would let a roll-forward install an emptied shadow
  (`Rotation.EmptiedShadowReplacesTheFile`).
- Rotation does not re-key journals: a hot journal is dead under the new key (`Reseal.JournalIsDead`).
- `next_kek_id` wraps at 255 and the slot count is truncated to a byte (`Envelope.NextIdIsNewIff`,
  `Envelope.AddParsesIff`).
- The fork rule extends dominance below saturation; at saturation only with an extra id that comes early
  or, with the same ids, a smaller encoding (`VersionVector.DominatorWinsIff`).
- `reset()` deletes the vector before the cursor. Cut in between, it is harmless exactly when every push of
  the device below its cursor is in the history of a blob at or behind it (`Sync.CutResetIsSafeIff`);
  otherwise `Sync.CutResetBreaksOrderIff` says when the very next push is ordered wrongly.
- A `sync()` pass cut after it applied an incoming image that won a fork loses the device's own image
  (`SyncPass.CutPassIsSafeIff`), and one cut between saving the vector and the forks loses the new forks
  (`SyncPass.CutSaveKeepsForksIff`).
- After a push the cursor is the length of the whole log, "everything up to and including our push"
  (index.js:883). It moves past what others pushed between the two listings without pulling it: the exact
  condition is `Sync.PushingPassSawIff`, and `Sync.SkipHappens` is a run. A later blob that carries it brings
  it in (`Sync.PullSees`).
- The freshness check is documented to refuse anything older than one generation (vfs.rs:1268-1270). While the
  record of the last seal is missing, a manifest two behind passes too (`Finalization.RollbackIsRefusedIff`).
- `verify_device_cert` is documented never to panic; under a trust key that is a public key it does,
  exactly on an acceptable claim longer than 65535 characters (`Device.VerifyPanicsIff`).
- A truncate or a short write into a hot journal's magic kills it without a seal; SQLite makes neither
  (`Finalization.UnsealedDeaths`).
- A scope with an inner newline can make an issued certificate fail (`Caps.NewlineCanBreak`).

## Model

| member | source | states |
|---|---|---|
| BlockDevice.CutWrite | crates/freehold/src/vfs.rs:254-338 | power loss inside a write leaves every block wholly old or wholly new, the new ones a prefix of the covered range, and blocks skipped by a gap unreadable |
| BlockDevice.WriteRefines | crates/freehold/src/vfs.rs:254-338 | a hole-free write splices its bytes into the file's content and keeps the blocks authentic with zero slack |
| BlockDevice.CutTruncate | crates/freehold/src/vfs.rs:340-370 | power loss inside a shrinking truncate keeps every byte below the new size and leaves every block authenticating |
| BlockDevice.TruncateRefines | crates/freehold/src/vfs.rs:340-370 | a shrinking truncate keeps exactly the leading bytes and zeroes the slack |
| BlockDevice.DeviceRefines | crates/freehold/src/vfs.rs:186-384 | over every run of hole-free writes, shrinking truncates and size calls the device holds exactly the bytes of a plain byte sequence, in exactly the blocks its length needs, and `size()` is that length |
| BlockDevice.SyncAccessFile.Read | crates/freehold/src/vfs.rs:192-252 | the file's bytes with zeros past its end, whether every covered block was there, and an error exactly when a covered block does not authenticate |
| BlockDevice.SyncAccessFile.Write | crates/freehold/src/vfs.rs:254-338 | the result and the file for every cut: refused headers touch nothing, a partly covered block that does not authenticate stops the write behind the blocks before it |
| BlockDevice.SyncAccessFile.Truncate | crates/freehold/src/vfs.rs:340-370 | the result and the file for every cut: a last kept block that does not authenticate is refused without a change, else a prefix of the reseal and the shortening lands |
| BlockDevice.WrittenIsAfter | crates/freehold/src/vfs.rs:254-338 | on an authentic file, with the power on, a write that is not refused is the write of the refined run |
| BlockDevice.TruncatedIsAfter | crates/freehold/src/vfs.rs:340-370 | and so is a truncate |
| BlockDevice.RefusedIff | crates/freehold/src/vfs.rs:254-338 | on the bytes: on an authentic file the one write that fails is that of an SQLite header whose bytes 16 and 17 are not 0x10 and 0x00, to a main file, and it changes nothing |
| BlockDevice.WriteSucceedsIff | crates/freehold/src/vfs.rs:254-338 | whatever the file, a write succeeds exactly when it is no such header and covers no part of a block that does not authenticate; a failing one leaves the tracked length alone and has written just the blocks before |
| BlockDevice.TruncateSucceedsIff | crates/freehold/src/vfs.rs:340-370 | a truncate succeeds exactly when it keeps whole blocks, grows the file, or can read its last block back; else nothing changes |
| BlockDevice.HeaderStaysOk | crates/freehold/src/vfs.rs:262-275 | over every run of calls that keep headers whole, refusals and power cuts included, a main file never comes to start with an SQLite header of another page size |
| BlockDevice.SyncAccessFile.Size | crates/freehold/src/vfs.rs:381-384 | the logical length, cached |
| Fault.NextSurvivor | crates/freehold/src/vfs.rs:390-426 | the gate lets exactly the armed number of operations through and every later one vanishes |
| Crypto.RootsAreInjective | crates/freehold/src/crypto.rs:265-326 | equal full-state roots mean equal images, and no image has the zero root |
| Crypto.HashImage | crates/freehold/src/crypto.rs:280-316 | feeding blocks in index order to the running hasher gives the image's root |
| Journal.PagerChecksum | crates/freehold/src/vfs.rs:1752-1758 | the page checksum loop is the nonce plus every 200th byte, wrapping at 32 bits |
| Journal.ChecksumLaw | crates/freehold/src/vfs.rs:1752-1758 | without the loop: the checksum of zeros is the nonce, and changing byte i moves it by the difference, modulo 2^32, exactly for i in 96, 296, up to 3896 |
| Journal.ReplayedIff | crates/freehold/src/vfs.rs:1670-1697 | byte for byte, the journals that are replayed at all: the magic, page size 4096, and a sector size that is a positive multiple of it |
| Journal.ReplayRecords | crates/freehold/src/vfs.rs:1729-1772 | the record loop applies usable records up to the header's budget and reports where and why it left |
| Journal.ReplaySegments | crates/freehold/src/vfs.rs:1706-1779 | the segment loop terminates on every byte string, follows sector boundaries and keeps the shadow within its bound |
| Journal.ReplayJournalRoot | crates/freehold/src/vfs.rs:1644-1790 | on arbitrary journal bytes it returns the root of the specified image, or refuses exactly bad framing |
| RollbackJournal.ReplayRestores | crates/freehold/src/vfs.rs:1644-1790 | a journal of any number of segments that saved every page that differs restores the pre-transaction image, whichever main writes landed, exactly unless that image is empty and pages were written |
| JournalWriter.JournalRoundTrip | crates/freehold/src/vfs.rs:1644-1790 | a journal written byte by byte with any number of sector-aligned segments replays to the pre-transaction image |
| Anchor.AnchorLoad | crates/freehold/src/vfs.rs:952-983 | the two-slot loop picks the authentic slot of the highest sequence number |
| Anchor.SaveIsAtomic | crates/freehold/src/vfs.rs:952-1021 | a save never overwrites the slot the load chose; landed it is the next load, torn it changes nothing |
| Anchor.RecordKeeps | crates/freehold/src/vfs.rs:1033-1081 | the state after a record call for every cut inside it |
| Anchor.LoadedNeverDecreases | crates/freehold/src/vfs.rs:952-1081 | over every run of records and torn saves no loaded value decreases and no entry vanishes |
| Anchor.EpochSetsFloor | crates/freehold/src/vfs.rs:2098-2119 | an applied epoch leaves its floor in every authentic slot |
| Anchor.FloorSurvives | crates/freehold/src/vfs.rs:1274-1289 | once an epoch at f is applied no later open below f passes, through records, torn saves and losses of either single slot |
| Anchor.RunIsDistinct | crates/freehold/src/vfs.rs:1023-1081 | over every run the loaded anchor has at most one entry for a database |
| Manifest.ScanManifest | crates/freehold/src/vfs.rs:1112-1161 | the slot loop returns the authentic slot of the highest generation that corroborates the header uuid |
| Manifest.ReadCorroborates | crates/freehold/src/vfs.rs:1112-1161 | whatever the slots hold, what is read is of the header's database and is sealed in one of them at its own index |
| Manifest.SealIsAtomic | crates/freehold/src/vfs.rs:1084-1161 | a seal becomes what the manifest says, or, torn, leaves what it said |
| Manifest.SealRun | crates/freehold/src/vfs.rs:1084-1161 | after any run of seals the manifest says the last payload, or the one before it when the last seal is torn |
| Commit.DecryptWholeFile | crates/freehold/src/vfs.rs:1598-1640 | the plaintext of all blocks, refused at the first one that does not authenticate |
| Commit.GatedPrefix | crates/freehold/src/vfs.rs:390-426 | of any list of gated operations exactly a prefix is durable |
| Commit.Vfs.AnchorRecord | crates/freehold/src/vfs.rs:1023-1081 | one record call: refused without a write when the table is full, else one gated save |
| Commit.Vfs.FullStateRootOf | crates/freehold/src/vfs.rs:1800-1838 | the root of the decrypted blocks under the tracked length, or an error when one is missing or does not authenticate |
| Commit.Vfs.RecordAndSeal | crates/freehold/src/vfs.rs:1843-1881 | the generation in flight and then the manifest, each through the gate; what is durable when it fails in between |
| Commit.Vfs.OnMainSynced | crates/freehold/src/vfs.rs:1843-1881 | wherever the power fails exactly a prefix of the operations the barrier issues lands, also when it fails before its end |
| Commit.Vfs.CheckImage | crates/freehold/src/vfs.rs:1290-1430 | admits exactly when the length, header and full-state root checks pass on the shadow or the disk image |
| Commit.Vfs.CreateManifest | crates/freehold/src/vfs.rs:1171-1206 | the manifest is durable before the anchor is touched, for every cut |
| Commit.Vfs.OpenMainDb | crates/freehold/src/vfs.rs:1208-1453 | the verdict and, for every cut, the prefix of operations an open makes durable |
| Commit.Vfs.JournalFinalizeBarrier | crates/freehold/src/vfs.rs:1528-1555 | runs the barrier exactly when the journal is hot; what is durable when it fails |
| Commit.LetThroughIsGood | crates/freehold/src/vfs.rs:1335-1365 | the header that the block device lets through, over every such run, is the one that an open asks for |
| CrashSafety.OpenedIff | crates/freehold/src/vfs.rs:1268-1291 | over the loaded entries: a manifest is refused and the open makes nothing durable exactly when an entry of its database committed more than one generation past it or has a floor above it, or there is neither an entry nor room; any other is recorded and only the file checks decide |
| CrashSafety.WithoutManifest | crates/freehold/src/vfs.rs:1208-1266 | without a readable manifest, blocks refuse the database; none create it, with a manifest of generation 1, exactly when the anchor has room |
| CrashSafety.UnsealedVerdict | crates/freehold/src/vfs.rs:1314-1430 | which files are admitted before there is a page or a seal: empty ones, hot ones, and those whose listed length and header bytes fit; nothing is certified |
| CrashSafety.SaveRecords | crates/freehold/src/vfs.rs:1023-1081 | a record that lands raises the database's entry to what it offers, and a torn one changes nothing |
| CrashSafety.BarrierRecords | crates/freehold/src/vfs.rs:1843-1881 | a whole barrier leaves an entry that says its generation is committed and was in flight |
| CrashSafety.OpenRecords | crates/freehold/src/vfs.rs:1291 | an open whose record lands leaves an entry that has caught up with the manifest |
| CrashSafety.SealedLengths | crates/freehold/src/vfs.rs:1843-1881 | a sealed manifest lists the main file and the journal with their lengths |
| CrashSafety.OpenCertifies | crates/freehold/src/vfs.rs:1208-1453 | every disk that holds an image, directly or through its hot journal, is accepted and certified as that image |
| CrashSafety.SealHolds | crates/freehold/src/vfs.rs:1843-1881 | a landed seal accepts the new image and still accepts the image the journal rolls back to |
| CrashSafety.AtRestHolds | crates/freehold/src/vfs.rs:1843-1881 | a sealed database without a journal satisfies the invariant, for every image with a good header |
| CrashSafety.StepKeeps | crates/freehold/src/vfs.rs:1208-1555 | every journal write, page write, finalization, landed or torn operation, cut and open keeps the invariant |
| CrashSafety.EveryOpenCertifies | crates/freehold/src/vfs.rs:1208-1453 | over every run with any number of cuts, in transactions and recoveries, the next open accepts exactly the image of the last finalization that landed |
| CrashSafety.TransactionIsAtomic | crates/freehold/src/vfs.rs:1843-1881 | one transaction cut anywhere, with any number of cut recoveries, is certified as its pre-image or as the image it sealed |
| CrashSafety.CutAfterSeal | crates/freehold/src/vfs.rs:1528-1555 | a finalization cut anywhere between its seal and its journal's death, the last record landed, torn or missing, is recovered exactly when the seal kept the rollback target's root |
| CrashSafety.TornBlocksVerdict | crates/freehold/src/vfs.rs:1300-1360 | which recoverable disks with torn blocks are admitted, and with which image: no torn main block; a hot journal whose first block is torn is dead, so the main file must stand alone; no later torn block of a hot journal |
| Recovery.WrittenIsWellJournaled | crates/freehold/src/vfs.rs:1562-1640 | a journal written byte by byte and sealed into blocks is a hot rollback journal for the image it saved pages of |
| Recovery.WrittenJournalIsAllowed | crates/freehold/src/vfs.rs:1644-1790 | in every state of a run such a journal may be written, and a hot one extended |
| Recovery.CutCommitLosesTarget | crates/freehold/src/vfs.rs:1843-1881 | every commit cut between its seal and its journal's death leads at the next open to a session whose own finalization would lose the rollback target |
| Recovery.LossIsReachable | crates/freehold/src/vfs.rs:1528-1555 | from every database at rest a run reaches a state that no open accepts: a cut commit, an open, and a second finalization cut at the same place |
| Recovery.LossHappens | crates/freehold/src/vfs.rs:1528-1555 | the same without any assumption, for a database of one page |
| Finalization.HotIsMagic | crates/freehold/src/vfs.rs:1562-1591 | the hot test on sealed blocks is the magic test on the journal's bytes |
| Finalization.SealsAreDeaths | crates/freehold/src/vfs.rs:2692-2786 | with the calls SQLite makes, whatever state the files are in, a hook's barrier seals if and only if the call takes a hot journal dead |
| Finalization.UnsealedDeaths | crates/freehold/src/vfs.rs:2692-2786 | exactly which other calls kill a hot journal without a seal |
| Finalization.StepTracks | crates/freehold/src/vfs.rs:1843-1881 | every call, cut inside a call, close and open keeps the manifest and the session at exactly what was sealed so far, and the anchor with an entry whose generation in flight is never behind and whose committed one is the same, or one less after a cut before the last record of a seal |
| Finalization.BarrierSucceeds | crates/freehold/src/vfs.rs:1843-1881 | while the main file authenticates no barrier of such a run fails |
| Finalization.GenerationCountsDeaths | crates/freehold/src/vfs.rs:1528-1591 | from creation on, over every run of sessions and cuts, the generation is one more than the hot-to-dead transitions of whole calls and the cuts that came after a seal, and the roots in the manifest and the session are those of the last two images sealed |
| Finalization.SessionsDoNotLag | crates/freehold/src/vfs.rs:1843-1881 | while a session is open the anchor's committed generation is the manifest's |
| Finalization.RollbackIsRefusedIff | crates/freehold/src/vfs.rs:1268-1291 | at the end of every run, an older manifest put back under any files is refused, with nothing made durable, exactly when it is two generations behind, or three while the record of the last seal is missing |
| Finalization.TransactionIsOneDeath | crates/freehold/src/vfs.rs:2616-2638 | a transaction under journal deletion is one death, seals the image its page writes made, and can be followed by the next |
| Finalization.OnlyTheLastTwo | crates/freehold/src/vfs.rs:1405-1430 | at the end of every such run a journal-free open accepts exactly the last sealed image, and the one before it when it is as long |
| Finalization.SealedReopens | crates/freehold/src/vfs.rs:1208-1453 | a closed database that holds its last sealed image opens again, to a session that knows the manifest |
| Finalization.ReopenedLenIs | crates/freehold/src/vfs.rs:1366-1384 | a journal whose authenticated length takes up just its blocks reopens at that length, any other at its blocks |
| Reseal.ResealMainFile | crates/freehold/src/vfs.rs:2202-2222 | the block loop re-seals every block, or refuses at the first that does not open |
| Reseal.MainKeepsMeaning | crates/freehold/src/vfs.rs:2202-2222 | re-keying succeeds exactly on an authentic file, and each block opens to its old plaintext under the new key |
| Reseal.ImageCarriesOver | crates/freehold/src/vfs.rs:2187-2248 | the decrypted image, and so its root, carries over |
| Reseal.ManifestKeepsMeaning | crates/freehold/src/vfs.rs:2224-2246 | every slot, torn ones included, and the manifest as a whole read under the new key as under the old |
| Reseal.JournalIsDead | crates/freehold/src/vfs.rs:1562-1591 | a journal sealed under the old key is not hot under the new one |
| Reseal.VerdictCarriesOver | crates/freehold/src/vfs.rs:1208-1453 | with a dead journal the re-keyed database passes exactly the checks the old one passed, with the same image |
| Rotation.OldLineKeepsEverything | crates/freehold/src/vfs.rs:2260-2344 | before the envelope put, every cut of the stage and every cut recovery under the old key leave all live files and the anchor as they were |
| Rotation.RollBackClearsIff | crates/freehold/src/vfs.rs:2294-2358 | a completed recovery on the old line clears the staging files exactly when it found an intent or there were none |
| Rotation.CutStageLeavesShadow | crates/freehold/src/vfs.rs:2260-2344 | a stage cut after its first shadow leaves a shadow that recovery under either key does not remove |
| Rotation.StageArms | crates/freehold/src/vfs.rs:2260-2288 | a completed stage arms the roll-forward, whatever leftovers the pool had |
| Rotation.StageArmsIff | crates/freehold/src/vfs.rs:2260-2288 | a stage arms the roll-forward exactly when every database can be re-keyed and the intent fits its record |
| Rotation.AttemptKeeps | crates/freehold/src/vfs.rs:2298-2344 | a recovery attempt under the new key, cut anywhere and torn or not, stays on the way or finishes |
| Rotation.ReportIsTrue | crates/freehold/src/vfs.rs:2298-2344 | a recovery reports a roll-forward exactly when it finished one, and nothing to do exactly when it was finished and issues nothing |
| Rotation.NewLineReport | crates/freehold/src/vfs.rs:2298-2344 | for any pool: rolled forward, the intent is gone and the anchor holds no less than everything it carried; with a full anchor the intent stays as it was and an entry it carries has no place |
| Rotation.OldLineReport | crates/freehold/src/vfs.rs:2298-2344 | on the old line it reports a roll-back exactly when there was an intent, and then nothing is staged |
| Rotation.NewLineCompletes | crates/freehold/src/vfs.rs:2298-2344 | after the envelope put, any number of cut recoveries and then a whole one install exactly the re-keyed files, leave no shadow or intent, carry every anchor entry, and a repetition does nothing |
| Rotation.InstalledMeanTheSame | crates/freehold/src/vfs.rs:2187-2248 | every installed database decrypts to its old image and says its old manifest payload |
| Rotation.RotationKeepsPlaintext | crates/freehold/src/vfs.rs:2260-2344 | after the envelope put and any number of cut recoveries, a whole one leaves every database decrypting to its old image with its old manifest payload |
| Rotation.RotationAfterAnyRun | crates/freehold/src/vfs.rs:2260-2344 | the whole promise, files, anchor and plaintext, for every anchor that records, torn saves and losses can leave |
| Rotation.EmptiedShadowReplacesTheFile | crates/freehold/src/vfs.rs:662-699 | were unlinking not one step, an emptied shadow would replace the live file |
| Rotation.OpfsPool.ImportCiphertextFile | crates/freehold/src/vfs.rs:2162-2172 | unlink, create, resize, write, each through the gate |
| Rotation.OpfsPool.ResealDbCiphertext | crates/freehold/src/vfs.rs:2187-2248 | the re-keyed files of one database, or a refusal |
| Rotation.OpfsPool.StageRotation | crates/freehold/src/vfs.rs:2260-2288 | issues exactly the ceremony's operations, shadows first and the intent last, and succeeds exactly when every database re-keys and the intent can be recorded |
| Rotation.OpfsPool.RecoverRotation | crates/freehold/src/vfs.rs:2298-2344 | issues exactly the recovery's operations for the intent it finds, and reports which key opened it |
| Rotation.OpfsPool.DurableIsCut | crates/freehold/src/vfs.rs:390-426 | what is durable behind the pool is a cut of the operations it issued |
| Rotation.OpfsPool.DiscardRotationStaging | crates/freehold/src/vfs.rs:2348-2358 | unlinks exactly the staging files of the pool |
| ManifestCodec.Encode | crates/freehold/src/manifest.rs:63-84 | the block filled in place is the payload's encoding, decodes back exactly up to 166 files, and above 167 the copy panics |
| ManifestCodec.DecodeBlock | crates/freehold/src/manifest.rs:86-131 | the table loop reads what the format says, and refuses every other block |
| ManifestCodec.PayloadRoundTrip | crates/freehold/src/manifest.rs:62-131 | up to 166 files round-trip without the table touching the previous root |
| ManifestCodec.AnchorRoundTrip | crates/freehold/src/manifest.rs:150-197 | the anchor round-trips, truncated to the 101 entries that fit |
| ManifestCodec.PayloadLayout | crates/freehold/src/manifest.rs:62-84 | where each field of the payload stands in its block |
| ManifestCodec.AnchorLayout | crates/freehold/src/manifest.rs:159-175 | where each field of the anchor stands in its block |
| ManifestCodec.IntentRoundTrip | crates/freehold/src/vfs.rs:2491-2579 | names and carried anchor entries of a rotation intent read back |
| ManifestCodec.BlockSaysPayload | crates/freehold/src/manifest.rs:62-131 | the block of a manifest payload of the commit protocol says that payload and, where the hashes do not collide, no other |
| ManifestCodec.BlockSaysTable | crates/freehold/src/manifest.rs:150-197 | the block of an anchor table of the anchor protocol says that table and no other |
| ManifestCodec.RecordSaysIntent | crates/freehold/src/vfs.rs:2491-2579 | a rotation's intent is recordable exactly within the record's limits, and its names and anchor entries read back |
| VersionVector.RelationIsTheOrder | crates/freehold/src/sync.rs:103-124 | the four relations are exactly the component-wise order |
| VersionVector.MergeIsMax | crates/freehold/src/sync.rs:81-90 | merging takes the component-wise maximum and keeps vectors canonical |
| VersionVector.MergeIsJoin | crates/freehold/src/sync.rs:81-90 | merging is the least upper bound, commutative, associative and idempotent |
| VersionVector.IncrementKeeps | crates/freehold/src/sync.rs:75-79 | an increment moves only its own component and never leaves a zero |
| VersionVector.DecodeOfEncode | crates/freehold/src/sync.rs:126-173 | an encoded vector decodes to itself wherever it stands in a larger blob |
| VersionVector.EncodedAround | crates/freehold/src/sync.rs:126-138 | the wire form: the number of entries, and each id big-endian and count little-endian in its place |
| VersionVector.EncodeOfDecode | crates/freehold/src/sync.rs:142-173 | whatever decodes is canonical and is exactly its own encoding |
| VersionVector.WinnerIsTotalOrder | crates/freehold/src/sync.rs:254-282 | the fork rule is a strict total order |
| VersionVector.DominatorWinsIff | crates/freehold/src/sync.rs:254-282 | a dominating vector wins exactly below saturation, or with an extra id below the other's largest, or with the same ids and the smaller encoding |
| VersionVector.SmallerIdsWin | crates/freehold/src/sync.rs:254-282 | at equal totals the smaller id at the first place where the ids differ wins, else the shorter list |
| VersionVector.SmallerCountWins | crates/freehold/src/sync.rs:254-282 | with the same ids too, the smaller little-endian count at the first place where the counts differ wins |
| VersionVector.SumCounts | crates/freehold/src/sync.rs:92-95 | the total counts increments, one by one up to saturation of the component |
| VersionVector.SaturatedDominatorLoses | crates/freehold/src/sync.rs:92-95 | with saturated totals a dominated vector can win |
| VersionVector.ForkConverges | crates/freehold/src/sync.rs:244-252 | both sides of a fork pick the same winner, reach the same vector, and both blobs are stale for it |
| VersionVector.Vector.Increment | crates/freehold/src/sync.rs:75-79 | the counter map after an increment |
| VersionVector.Vector.MergeMax | crates/freehold/src/sync.rs:83-90 | the loop merges in place to the specified vector |
| VersionVector.Vector.RelationTo | crates/freehold/src/sync.rs:105-124 | one pass over both key lists decides the relation |
| VersionVector.Vector.TotalCount | crates/freehold/src/sync.rs:92-95 | the saturating fold is the saturated sum |
| VersionVector.Vector.EncodeBytes | crates/freehold/src/sync.rs:126-138 | the filter and append loops produce the encoding |
| VersionVector.DecodeBytes | crates/freehold/src/sync.rs:142-173 | the cursor loop accepts exactly ascending non-zero entries that fit |
| SyncBlob.OpenOfEncode | crates/freehold/src/sync.rs:191-225 | an encodable blob opens to itself |
| SyncBlob.OpensExactlyEncodings | crates/freehold/src/sync.rs:208-225 | a byte string opens exactly when it is some blob's encoding |
| Sync.LeqIffHistory | crates/freehold/src/sync.rs:103-124 | of two reachable states, one vector is at most the other exactly when its history is contained |
| Sync.RunKeeps | packages/db/index.js:822-889 | every interleaving of device steps, cuts, resets and harmlessly cut resets keeps the causal invariant |
| Sync.VectorsAreCausality | packages/db/index.js:822-889 | one pushed vector is at most another exactly when the first blob is in the second's causal history, and no two pushed vectors are equal |
| Sync.OutcomeIsCausality | crates/freehold/src/sync.rs:244-252 | stale, fast-forward and fork are exactly the causal relation between a device and a blob |
| Sync.PullSees | packages/db/index.js:842-874 | a pull, stale or not, adds the pulled blob and its whole history to what the device knows |
| Sync.PushingPassSawIff | packages/db/index.js:877-886 | a pass that pushes moves its cursor past every blob pushed by others between its two listings, and saw everything below the cursor exactly when there was none |
| Sync.StepSees | packages/db/index.js:822-889 | a step of any device leaves this one having seen everything below its cursor exactly unless it lists after a push a log that grew otherwise, or has a reset with a cursor cut |
| Sync.AttendedRunSees | packages/db/index.js:822-889 | over every interleaving without those steps the saved cursor never moves past an unseen blob |
| Sync.SkipHappens | packages/db/index.js:877-886 | two devices that push at once: one saves a cursor past the other's blob, and its next whole pass pushes without it |
| Sync.AfterTheSaves | packages/db/index.js:886-888 | after both saves the next pass begins where this one ended; cut between them, at the old cursor with the new vector |
| Sync.CutResetKeepsIff | packages/db/index.js:900-903 | a cut reset keeps the invariant exactly when every push of the device below its cursor is in the history of a blob at or behind it |
| Sync.CutResetIsSafeIff | packages/db/index.js:900-903 | after the cut reset and the next whole pass every vector of the log still tells its history exactly under that condition |
| Sync.CutResetBreaksOrderIff | packages/db/index.js:900-903 | otherwise the next push is ordered wrongly at once exactly when an old blob knows all it knows and the first forgotten push, or that push knows nothing else |
| Sync.CutResetBreaksCausality | packages/db/index.js:900-903 | a device that was up to date and had pushed is ordered below a blob that never saw its new push |
| Relay.InMemoryRelay.Put | packages/db/relay-mem.js:28-34 | appends to one bucket, returns the index, leaves the others |
| SyncPass.PassIsTheJoin | packages/db/index.js:842-874 | a pass ends at the least vector above the local and all pulled ones and drops no preserved fork |
| SyncPass.ReportCounts | packages/db/index.js:850-873 | the report counts the blobs that were strictly above the local vector, and the losers preserved |
| SyncPass.LosersAreNamed | packages/db/index.js:868-873 | the preserved losers have names of their own: log positions that ascend, and each one's place |
| SyncPass.PullsConvergeIff | packages/db/index.js:842-874 | two devices that pull the same blobs in any order end at the same vector exactly when each start is covered by the other's end |
| SyncPass.ForkKeepsBothImages | packages/db/index.js:854-873 | both sides of a fork end with the same live image and keep the other one |
| SyncPass.CutPassIsSafeIff | packages/db/index.js:842-888 | a pass cut before it saved and run again ends where the whole pass would have exactly unless the device's own image had become the loser of a fork and was replaced |
| SyncPass.CutSaveKeepsForksIff | packages/db/index.js:885-888 | a pass cut between saving the vector and the forks recovers its forks exactly when it met none |
| SyncPass.PullsAreThePass | packages/db/index.js:842-874 | undisturbed pull steps of the protocol compute what the loop computes |
| SyncPass.Device.Pull | packages/db/index.js:842-874 | the pull loop applies each blob's outcome in order, one `ReconcileNext` a blob |
| SyncPass.Device.SyncOnce | packages/db/index.js:822-889 | vector, cursor, forks, image, report and relay log after a whole pass |
| Envelope.RenderParsesIff | crates/freehold/src/envelope.rs:167-176 | a built envelope parses exactly while its slot count fits a byte, to its slots and generation |
| Envelope.ParsesIff | crates/freehold/src/envelope.rs:167-176 | byte for byte, the blobs that parse |
| Envelope.BytesRefine | crates/freehold/src/envelope.rs:342-486 | every byte operation does what the mutation means, errors included |
| Envelope.NextIdIsNewIff | crates/freehold/src/envelope.rs:234-241 | an added id differs from all others exactly while the largest is below 255 or 0 is unused |
| Envelope.AddParsesIff | crates/freehold/src/envelope.rs:413-429 | adding gives a blob that parses exactly when there were fewer than 255 slots |
| Envelope.RemoveLeavesOne | crates/freehold/src/envelope.rs:433-451 | with distinct ids a removal takes away at most one slot |
| Envelope.SlotsAfterDrop | crates/freehold/src/envelope.rs:391-451 | on the bytes, a removal or strip takes away exactly the slots with that id or kind, and fails exactly when told to remove the only slot or none, or to strip all |
| Envelope.DoKeeps | crates/freehold/src/envelope.rs:342-486 | every allowed mutation keeps ids distinct and a slot present, and moves the generation as stated |
| Envelope.GenerationMoves | crates/freehold/src/envelope.rs:185-206 | add, remove and rotate raise the generation by one so the floor refuses the old blob, strip keeps it |
| Envelope.OpensIffHeld | crates/freehold/src/envelope.rs:510-538 | a key opens an envelope exactly when some slot was wrapped under it, and then to the one DEK |
| Envelope.OpensIffTagged | crates/freehold/src/envelope.rs:510-538 | whatever the blob, once a slot gives a DEK it opens if its last 32 bytes are the MAC of all the others, and is tampered with if not |
| Envelope.TamperIsCaught | crates/freehold/src/envelope.rs:510-538 | under a MAC that tells the bodies of a run apart, a built envelope with its MAC or the bytes before it changed, still parsing and still giving the DEK, is tampered with |
| Envelope.GenerationIsBound | crates/freehold/src/envelope.rs:510-538 | no key opens a built envelope whose generation was overwritten |
| Envelope.IdealSuitesExist | crates/freehold/src/envelope.rs:510-538 | the assumptions on ciphers and MAC can be met together |
| Envelope.EnvelopeRuns | crates/freehold/src/envelope.rs:342-551 | over every run the blob parses, its MAC verifies, ids are distinct, a slot remains, and a key opens it exactly when a remaining slot holds it |
| Envelope.ScanNextId | crates/freehold/src/envelope.rs:234-241 | the maximum scan finds the next id |
| Envelope.RemoveSlot | crates/freehold/src/envelope.rs:433-451 | the filter loop removes exactly the slots with the id, or refuses |
| Envelope.StripKind | crates/freehold/src/envelope.rs:391-409 | the filter loop strips exactly the slots of a kind, or refuses |
| Envelope.SetGenerationInPlace | crates/freehold/src/envelope.rs:456-463 | overwrites the generation and the MAC in the buffer and nothing else |
| Envelope.TryOpen | crates/freehold/src/envelope.rs:510-538 | the first slot that opens decides, and a bad MAC is tampering |
| Bundle.Encode | crates/freehold/src/bundle.rs:40-68 | the appended sections are the encoding |
| Bundle.Decode | crates/freehold/src/bundle.rs:90-131 | the cursor loop reads sections in any order and refuses everything else |
| Bundle.RoundTrip | crates/freehold/src/bundle.rs:40-131 | within the length fields decoding an encoded bundle gives it back |
| Utf8.ValidIffText | crates/freehold/src/bundle.rs:108-117 | the names that are accepted are exactly the UTF-8 encodings of sequences of scalar values |
| Decryptor.ParseBundle | crates/freehold-decrypt/src/lib.rs:116-157 | the second reader's loop |
| Decryptor.ReadersAgree | crates/freehold-decrypt/src/lib.rs:116-157 | for all byte strings both readers accept the same inputs and read the same envelope and files, except an empty envelope |
| Decryptor.OpenEnvelope | crates/freehold-decrypt/src/lib.rs:162-219 | the first recovery slot that opens decides, then the MAC |
| Decryptor.OpenedIsTagged | crates/freehold-decrypt/src/lib.rs:162-219 | what opens is well framed and carries the MAC of its body under the DEK that comes out |
| Decryptor.DecryptDbFile | crates/freehold-decrypt/src/lib.rs:255-286 | all blocks in order, or an error |
| Decryptor.Recover | crates/freehold-decrypt/src/lib.rs:290-318 | every database of the bundle, or the first error |
| Decryptor.NothingToRecover | crates/freehold-decrypt/src/lib.rs:290-318 | a bundle without a database is an error, even with the right code |
| Export.HexRoundTrip | crates/freehold/src/lib.rs:2484-2492 | hex digits decode to the bytes they were written for |
| Export.HexDigits | crates/freehold/src/vfs.rs:2124-2139 | digit for digit, the high half and then the low half of each byte, in lower case |
| Export.HexToBytes | crates/freehold/src/lib.rs:2484-2492 | the pair loop, refusing odd lengths and bad digits |
| Export.TextReadsBack | crates/freehold/src/vfs.rs:2124-2139 | through lines, pipes and hex an export is the pool's files |
| Export.OtherLines | crates/freehold/src/lib.rs:2976-2981 | a carriage return before the newline is no part of a line, and a line without a pipe is skipped |
| Portability.GridDecrypts | crates/freehold-decrypt/src/lib.rs:255-286 | the second implementation decrypts a block grid to exactly its pages |
| Portability.StandaloneOpens | crates/freehold-decrypt/src/lib.rs:162-219 | it opens an envelope exactly with the code of one of its recovery slots |
| Portability.StandaloneCatchesTamper | crates/freehold-decrypt/src/lib.rs:162-219 | it does not open an envelope whose generation was overwritten |
| Portability.StripKeepsRecovery | crates/freehold/src/envelope.rs:391-409 | stripping device slots keeps every recovery slot and the DEK |
| Portability.ExportCarries | crates/freehold/src/lib.rs:2963-3010 | read back, an export is the pool's databases and manifests, the credential id, the epoch token, and the envelope with exactly its device slots gone |
| Portability.RecoveryReturnsThePlaintext | crates/freehold/src/lib.rs:2963-3010 | exporting and then recovering with a held code returns exactly the plaintext blocks of every listed database |
| Portability.ListDatabases | crates/freehold/src/lib.rs:2971-2973 | the filter and sort list exactly the `.db` names of the pool |
| Portability.WrittenBytesComeBack | crates/freehold/src/lib.rs:2963-3010 | for every `.db` of the pool, export and recovery return exactly the bytes written through the block device, filled up to whole blocks |
| Base64Url.RoundTrip | crates/freehold/src/device.rs:63-116 | base64url decodes what it encodes |
| Base64Url.EncodesBits | crates/freehold/src/device.rs:63-80 | each group is the symbols of its bits, six at a time |
| Base64Url.SymbolIsAlphabet | crates/freehold/src/device.rs:63-80 | the symbols are the URL-safe alphabet of section 5 of RFC 4648 |
| Base64Url.EncodeChunks | crates/freehold/src/device.rs:63-80 | the chunk loop encodes |
| Base64Url.DecodeChunks | crates/freehold/src/device.rs:84-116 | the chunk loop decodes or refuses |
| Base64Url.DecodeIsNotInjective | crates/freehold/src/device.rs:84-116 | bits past the last byte are ignored |
| Caps.CanonicalIffSameScopes | crates/freehold/src/device.rs:182-191 | the canonical string depends only on the scope set and, for newline-free scopes, determines it |
| Caps.SpaceIffWhite | crates/freehold/src/device.rs:182-191 | what trimming takes off, at the front and at the back, is exactly the UTF-8 of white-space characters |
| Caps.WellFormedIffCanonical | crates/freehold/src/device.rs:197-206 | the well-formed strings are exactly the canonical strings of newline-free scopes |
| Caps.NewlineCanBreak | crates/freehold/src/device.rs:182-206 | a newline inside a scope can make the canonical string ill-formed |
| Device.CanonicalClaimBytes | crates/freehold/src/device.rs:226-250 | the buffer built field by field is the canonical layout, or the panic of a text field above 65535 bytes |
| Device.ParseClaimBytes | crates/freehold/src/device.rs:277-326 | the cursor parser accepts exactly six framed fields of the right types with nothing behind them |
| Device.ClaimRoundTrip | crates/freehold/src/device.rs:226-326 | encodable fields parse back |
| Device.ClaimLayout | crates/freehold/src/device.rs:226-250 | field by field: the domain string and six fields behind two-byte lengths |
| Device.ParsedIsCanonical | crates/freehold/src/device.rs:277-326 | whatever parses is the canonical bytes of its fields |
| Device.AcceptedIffCanonicalAndSigned | crates/freehold/src/device.rs:362-406 | a claim is accepted exactly when it is the canonical string of acceptable, signed, current fields under a public key, and those are unique |
| Device.IssuedVerifiesIff | crates/freehold/src/device.rs:337-406 | an issued certificate verifies throughout its window exactly when its capability string is well-formed |
| Device.VerifyPanicsIff | crates/freehold/src/device.rs:362-406 | the exact claims and trust keys on which verification panics |
| Device.VerifyCanPanic | crates/freehold/src/attest.rs:89-101 | there is such a claim for every device and every valid trust key |

## Left out

- Ciphers, key derivation, hashes and signatures themselves, nonce randomness and the random self-tests.
- Browser handles, pool capacity, VFS registration, WebAuthn, IndexedDB, Web Locks, transports, the UI and SQL execution.
- `seal_root_migration`, the legacy 40-byte epoch token and databases written before the current manifest: only databases created by this code are modelled.
- Finalization.GenerationCountsDeaths: runs that open a database which never sealed over main pages without a hot journal are not covered, because that open rewrites the current slot (`seal_root_migration`).
- `attest.rs` and `relay_auth.rs`: fixed layouts over one signature; `Device` treats the signed message as a value.
- What SQLite does when it plays a journal back (`xCheckReservedLock` always answers one), and WAL files.
- Shrinking transactions and empty pre-images; runs that write past a gap.
- A partial physical block at the end of a file, and files whose blocks another key sealed.
- Satellite files other than the rollback journal: their authenticated lengths in the manifest.
- Epoch token encoding and the envelope generation it attests; `Anchor` models what applying one writes.
- Enrolment and bundle import crash points: they replace the envelope before the floor.
- Local commits do not bump the version vector until a push.
- Fork names and listeners, relay signatures, and the sealed form of a relay blob around `SyncBlob`.
- Recovery-code generation, checksums and normalisation.
- Scope strings and file names are byte strings of UTF-8.
- 32-bit `usize`: lengths are unbounded naturals with the bounds of the length fields and of 64-bit counters written out.
