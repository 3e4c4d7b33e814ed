# Verified model of the openvela OTA tools

This project models the parts of the openvela `ota` repository that decide whether
a device ends up with the right bytes in the right place, and proves properties of
them in Dafny. `dafny verify dfyconfig.toml` checks everything.

| Files | What they model |
|---|---|
| `BootConfig`, `BootCtl`, `BootProtocol`, `BootTorn` | A/B slot selection: the seven persistent flags, the five operations over the key-value store, disciplined update sessions of any length, and power cuts inside the seven-write sequences |
| `Bits`, `Bytes`, `Packing`, `Dither`, `ImageFormat`, `Converter`, `ImageLayout`, `ImageFile` | The image converter: twelve pixel formats, output grown and or-ed in place, error diffusion across rows and calls, the C array and the binary file |
| `ZipRecords`, `ZipArchive`, `ZipDigest`, `ZipVerify` | Signed archives: locating the signing block from the end of the file, nested length-prefixed records, the chunked two-level content digest fed from short reads, and the whole check |
| `Milestones`, `OtaScript`, `OtaRuns`, `ScriptOrder` | Update scripts: their milestones, the scripts of full and differential packages, what running them does to the device, and the order of the values they report and announce |
| `OtaUi`, `ProgressRuns`, `UpgradeWidget` | Progress: the smoothing display, script and display interleaved, and the widget that draws the value |
| `MachineInts`, `Wrappers` | C's fixed-width integers and an option type |

State that the program changes in place is a class (`BootCtl.Kvdb`,
`Converter.Converter`, `ZipRecords.SignatureInfo`, `ZipArchive.File`,
`ZipDigest.Sha256`, `OtaUi.Display`, `UpgradeWidget.Upgrade`); its methods follow
the source statement by statement and are proved against functions on values, about
which the main results are then proved.

## What the environment is in the model

- The key-value store reads missing keys as false. It has a budget of property
  writes: the write after the last one reports an error. A failed write and a power
  cut leave the same store behind, so one statement covers both.
- Whether a slot's image works is part of the protocol state but is never read by
  bootctl. A disciplined session boots, calls `success` if it came up, then may call
  `update`, rewrite the other slot and call `done`; a reset may come at any point.
- SHA-256 is a function parameter applied to all bytes fed to a context; RSA
  verification is a function parameter. So is the schedule of reads: each one returns
  some non-empty prefix of what was asked for, nothing at the end of the file, or fails.
  A seek to a negative position is refused and leaves the position. File positions and
  pointers have 64 bits, `int` has 32.
- Pixels are given as colour, opacity and palette index. Python's shifts and masks
  by constants on non-negative numbers are written as division and remainder; `|` is
  defined digit by digit.
- Milestone floats are real numbers. Shell verification, copy and patch steps succeed
  or fail as functions of the file or device they work on; what a patch makes of a
  partition, and what a failed copy or patch leaves in it, are functions too.
- Whether the key file of an archive can be found and opened, whether each page call of
  the display succeeds, and what `property_commit` returns are inputs.

## Where the code differs from what is said about it

- The usage text says a finished update is started on the next reboot. A fallback
  from a failed trial leaves the trial flag set and `success` skips a slot that is
  already successful, so after one failed trial no later update is ever started
  (`BootProtocol.TrialIffNeverFellBack`, `BootProtocol.SecondUpdateNeverTried`).
- The usage text says a failed start makes the other slot active. That holds for
  slot A only when slot B is successful (`BootProtocol.BootPolicy`).
- Power cuts are harmless with two exceptions: between the first two writes of
  `done` when slot B updates slot A, and while the boot loader writes the fallback
  from A to B (`BootTorn.CutDoneMislabels`, `BootTorn.CutBoot`). From a working factory
  image, a run with one such cut starts a failing image twice in a row
  (`BootTorn.HazardsLoseSafety`). An atomic `property_commit` would remove both.
- `get_signature_info` looks for the certificate right behind the first digest, which
  is right exactly for signers with one digest (`ZipRecords.CertificateRecovered`).
- The archive check returns success when the key file is there but cannot be opened: the
  result of having found it is returned, and neither signature nor digest is looked at
  (`ZipVerify.AcceptedArchives`, `ZipVerify.UnopenedKeyAccepts`).
- The results of hashing the first two sections are not looked at. When a read fails
  there, a digest that leaves out chunks is accepted (`ZipDigest.OnlyPartialDigests`,
  `ZipDigest.DataNotRead`, `ZipDigest.DataIsOmitted`).
- A position of the end record that does not fit an `int` is returned cut to 32 bits. So
  an end record at 2 GiB or later is rejected, except at a multiple of 4 GiB, where 0 is
  returned and every digest is accepted; for regions located in the same file this is the
  only such case (`ZipVerify.UncheckedFiles`, `ZipVerify.AcceptedArchives`,
  `ZipVerify.FourGiBAccepts`). For other regions, as after the file was cut short between
  the two times it is opened, the 0 of a read that finds the end of the file is returned
  likewise (`ZipDigest.UncheckedDigest`). The end record is read once: when that read is
  cut, a correct archive is rejected (`ZipDigest.ExactDigest`).
- A directory offset behind the end record wraps the length of the directory so that no
  chunk of it is counted or hashed; when the end record fits the file, a located directory
  is never far enough behind for anything else, offsets below 16 aside
  (`ZipDigest.WrappedDirectory`, `ZipVerify.DirectoryBehindUncounted`).
- With several new partitions the milestones of a differential package leave their
  range except under a narrow condition (`Milestones.NewPartitionsOvershoot`).
- The milestone of the first new partition is never announced, so the reported value can
  overtake the announced one (`ScriptOrder.DiffPackageClimbs`,
  `ProgressRuns.NewPartitionOvertakes`, `ProgressRuns.OvertakingPackage`). A differential
  script with nothing left to do ends with 30 reported (`OtaRuns.SuccessfulDiffRun`).
- The C array rows drop data when rows do not fill whole bytes, and for RGB332 with
  alpha (`ImageFile.PrintedIsComplete`).
- When an earlier run left 100 or more in the progress property, the display can show 100,
  and the success page, before the script has reported anything
  (`ProgressRuns.HundredShownEarly`). A display that is started at 100 or more goes back
  in its first round when that finds 0 to 99 (`ProgressRuns.HighStartGoesBack`).
- A bar with a single image has no image to show unless its key is matched
  (`UpgradeWidget.IndexInRange`); the 8 bit value cache makes later updates wrong
  for some values above 255, and values from 2^31 on read back as 0
  (`UpgradeWidget.CacheAliasing`).

## Model

| member | source | states |
|---|---|---|
| BootConfig.AnyOrderKeepsWellFormed | bootctl/bootctl.c:121-281 | after the first boot, every order of boot, update, done and success keeps exactly one slot active, active slots bootable and successful slots bootable |
| BootConfig.SuccessfulSlotKept | bootctl/bootctl.c:135-281 | in every order in which each update comes directly after a success, a successful slot once present is never lost |
| BootConfig.UpdateSparesBootedSlot | bootctl/bootctl.c:121-153 | the booted slot is the one reported active, and any number of update and success calls leave it current, bootable and as successful as it was |
| BootConfig.BootFrame | bootctl/bootctl.c:208-281 | what a boot leaves alone, from every store with an active slot: successful flags never change, slots other than the one started and the candidate of a failed trial are untouched, only that candidate loses its bootable flag, and nothing is changed when a proven active slot is started without a failed trial |
| BootConfig.StartsB | bootctl/bootctl.c:208-281 | which slot is started, as a condition on the flags |
| BootConfig.SuccessFrame | bootctl/bootctl.c:179-203 | success sets one flag of the current slot and clears the trial flag unless it was set already, and leaves everything else |
| BootConfig.UpdateFrame | bootctl/bootctl.c:135-153 | update clears the other slot, and leaves the current one and the trial flag |
| BootConfig.DoneFrame | bootctl/bootctl.c:157-175 | done moves the active mark and makes its new slot bootable, and leaves every other flag |
| BootConfig.TornFlags | bootctl/bootctl.c:58-105 | after k of the seven writes exactly the first k flags, in the order in which they are written, are the new ones |
| BootCtl.Kvdb.WriteConfig | bootctl/bootctl.c:58-105 | the store afterwards is the old one with exactly the first writes that succeeded applied, in order; the result is an error if one of the seven failed, and else that of the commit |
| BootCtl.Kvdb.ReadConfig | bootctl/bootctl.c:107-116 | the seven flags, missing ones false |
| BootCtl.Kvdb.Active | bootctl/bootctl.c:121-132 | an active slot iff there is one, slot A first |
| BootCtl.Kvdb.Update | bootctl/bootctl.c:135-153 | refines the specified transition, cut after as many writes as succeed, with the result of the writes and the commit |
| BootCtl.Kvdb.Done | bootctl/bootctl.c:157-175 | refines the specified transition, cut after as many writes as succeed, with the result of the writes and the commit |
| BootCtl.Kvdb.Success | bootctl/bootctl.c:179-203 | refines the specified transition, cut likewise; writes nothing and cannot fail when the current slot is already successful |
| BootCtl.Kvdb.Boot | bootctl/bootctl.c:208-281 | the goto version selects the specified slot and leaves the specified store, cut after as many writes as succeed; a failed write does not change the slot booted |
| BootProtocol.InvStep | bootctl/bootctl.c:135-281 | every step of a disciplined session keeps the protocol invariant and never loses the last successful slot |
| BootProtocol.InvRun | bootctl/bootctl.c:135-281 | the same over runs of any length |
| BootProtocol.SuccessfulImpliesWorks | bootctl/bootctl.c:135-281 | in every run from the factory a successful mark sits only on a working image, the current slot is the one running, and a successful slot once present is never lost |
| BootProtocol.BootPolicy | bootctl/bootctl.c:208-281 | exactly when the boot loader starts the active slot and when it withdraws it; the slot it starts is the active one afterwards |
| BootProtocol.NoTwoBadBoots | bootctl/bootctl.c:208-281 | from any reachable state with a known-good slot, no two consecutive boots run an image that does not work |
| BootProtocol.AnyTwoBootsOneWorks | bootctl/bootctl.c:208-281 | every run from a factory with a working slot A, whatever images are written and wherever resets fall: of two consecutive boots one works |
| BootProtocol.StuckForever | bootctl/bootctl.c:216-275 | fallback states are closed under all disciplined sessions and boot the same slot every time |
| BootProtocol.FailedTrialIsFinal | bootctl/bootctl.c:222-251 | after a trial boot that hung, every later boot of every continuation runs the known-good slot |
| BootProtocol.FinishedUpdateGetsOneTrial | bootctl/bootctl.c:155-251 | after done the new slot is booted next iff the trial flag is clear; it gets one boot, after which only success keeps it |
| BootProtocol.TrialIffNeverFellBack | bootctl/bootctl.c:179-251 | over whole runs, a finished update is tried iff no boot so far fell back from a failed trial |
| BootProtocol.SecondUpdateNeverTried | bootctl/bootctl.c:179-251 | a concrete run in which a finished update with a working image is not started, against README.md:34 |
| BootTorn.CutSuccess | bootctl/bootctl.c:58-105 | success cut after any write: the next boot works, and is of the running slot under an exact condition |
| BootTorn.CutUpdateKeepsRunningSlot | bootctl/bootctl.c:58-105 | update cut after any write: the running slot is booted next and stays current and successful |
| BootTorn.CutDone | bootctl/bootctl.c:58-105 | done cut after any write: the new image is booted iff its bootable flag was written and the trial flag is clear; one of the next two boots works |
| BootTorn.CutDoneMislabels | bootctl/bootctl.c:58-105 | after such a cut the slot taken as current differs from the one booted iff slot B was updating slot A and exactly one write landed |
| BootTorn.MislabelledSuccess | bootctl/bootctl.c:179-203 | in that case the next success marks the image that did not run and it is booted from then on |
| BootTorn.CutBoot | bootctl/bootctl.c:216-281 | a cut in the boot loader's own write changes the choice to an unproven slot iff it falls within the first three writes of a fallback from A to B |
| BootTorn.CutInvStep | bootctl/bootctl.c:58-281 | every completed or cut step, the two hazards aside, keeps the invariant of cut runs |
| BootTorn.CutRunSafe | bootctl/bootctl.c:58-281 | runs of completed and cut steps from any such state never boot two failing images in a row |
| BootTorn.CutsKeepTwoBootSafety | bootctl/bootctl.c:58-281 | the same for every run from a factory with a working slot A and any number of power cuts other than the two hazards |
| BootTorn.HazardsLoseSafety | bootctl/bootctl.c:58-281 | both hazards are reached: concrete runs from a working factory image with a single such cut, for the one cut of done and each of the three of the boot loader, that start a failing image twice in a row |
| Packing.StrideIsCeiling | tools/lvgl_image_converter/lv_img_converter/lv_img_converter.py:453-476 | a row takes ceil(w * n / 8) bytes |
| Packing.OrAppends | tools/lvgl_image_converter/lv_img_converter/lv_img_converter.py:459-479 | or-ing the shifted sample into the byte equals appending it as the next field |
| Packing.RowAppends | tools/lvgl_image_converter/lv_img_converter/lv_img_converter.py:453-513 | one more sample opens a zeroed byte at a byte boundary and updates the last byte otherwise |
| Packing.RowField | tools/lvgl_image_converter/lv_img_converter/lv_img_converter.py:453-513 | the most-significant-first field of every sample of a packed row reads back that sample |
| Packing.RowPadding | tools/lvgl_image_converter/lv_img_converter/lv_img_converter.py:453-513 | padding bits at the end of a row are zero |
| Packing.FieldIs | tools/lvgl_image_converter/lv_img_converter/lv_img_converter.py:453-513 | a field is what lies between the bits before it and the bits behind it |
| Dither.RoundIsNearest | tools/lvgl_image_converter/lv_img_converter/lv_img_converter.py:579-593 | the rounding of n / 16 is to nearest, ties to even, and odd |
| Dither.QuantiseLevel | tools/lvgl_image_converter/lv_img_converter/lv_img_converter.py:536-573 | a quantised channel is a representable level, the next one up or the largest, less than one step away for samples without dithering |
| Dither.QuantiseClamps | tools/lvgl_image_converter/lv_img_converter/lv_img_converter.py:536-573 | for every value, also those that carried errors take out of range: 0 from 0 down, the largest level from it on, the next level up in between; levels are kept |
| Dither.QuantiseMonotone | tools/lvgl_image_converter/lv_img_converter/lv_img_converter.py:635-638 | a larger value never gives a smaller level |
| Dither.LevelNearClamped | tools/lvgl_image_converter/lv_img_converter/lv_img_converter.py:536-573 | the level of any value is less than one step from the value brought into 0..255 |
| Dither.UnitIs | tools/lvgl_image_converter/lv_img_converter/lv_img_converter.py:635-638 | the step of a channel with n bits is 256 / 2^n |
| Dither.SharesKeepError | tools/lvgl_image_converter/lv_img_converter/lv_img_converter.py:579-593 | the four diffused shares hand on the whole error up to 2 |
| Dither.DiffuseShares | tools/lvgl_image_converter/lv_img_converter/lv_img_converter.py:525-593 | one pixel hands 3, 5, 1 and 7 sixteenths of its error, rounded to nearest, to its three slots and the carried error, empties the slot it read first, and changes no other |
| Dither.ErrorKept | tools/lvgl_image_converter/lv_img_converter/lv_img_converter.py:525-593 | over one pixel, slots and carried error together lose what the pixel consumed and gain the sample less its level, up to 2 |
| Dither.PhasedStep | tools/lvgl_image_converter/lv_img_converter/lv_img_converter.py:525-593 | one pixel keeps the phased accumulator bounds 80, 144 and 128 and reads within them |
| ImageLayout.EveryReadBounded | tools/lvgl_image_converter/lv_img_converter/lv_img_converter.py:519-593 | over any sequence of conversions in any formats every read slot is at most 144, the carried error at most 112, the quantised value in -256..511 |
| ImageLayout.EndSlotsNeverRead | tools/lvgl_image_converter/lv_img_converter/lv_img_converter.py:519-593 | whatever the first and last accumulator slots hold, the output of every call in any sequence of conversions is the same |
| ImageFormat.PixelRoundTrip | tools/lvgl_image_converter/lv_img_converter/lv_img_converter.py:429-452 | channel fields are disjoint: pixel bytes decode to the levels and the alpha |
| ImageFormat.PixelWords | tools/lvgl_image_converter/lv_img_converter/lv_img_converter.py:429-452 | the bytes as 16 bit word, low or high byte first, as one byte, or as blue, green, red, in terms of the levels |
| ImageFormat.LevelsAreKept | tools/lvgl_image_converter/lv_img_converter/lv_img_converter.py:536-573 | a colour made of levels of the format is not changed, so every level occurs |
| ImageFormat.SampleMeaning | tools/lvgl_image_converter/lv_img_converter/lv_img_converter.py:453-517 | an alpha sample is the opacity to within one step, the 1 bit one whether it exceeds 0x80; an index sample is the index modulo the palette size |
| ImageFormat.PaletteSizeIs | tools/lvgl_image_converter/lv_img_converter/lv_img_converter.py:124-163 | a palette has an entry for every index that a sample can hold |
| Converter.Converter.ForceUpdate | tools/lvgl_image_converter/lv_img_converter/lv_img_converter.py:33-39 | replaces an element or extends the list with holes up to the new last element |
| Converter.Converter.OrField | tools/lvgl_image_converter/lv_img_converter/lv_img_converter.py:459-479 | the create-or-update of one byte turns the packed row into the packed row with one more sample, leaving no hole |
| Converter.Converter.DitherReset | tools/lvgl_image_converter/lv_img_converter/lv_img_converter.py:519-523 | clears the carried errors iff dithering is on |
| Converter.Converter.DitherNext | tools/lvgl_image_converter/lv_img_converter/lv_img_converter.py:525-632 | refines the per-channel error diffusion, or plain quantisation without dithering |
| Converter.Converter.AppendPixel | tools/lvgl_image_converter/lv_img_converter/lv_img_converter.py:429-452 | merging the channels by shifts and `or` appends the bytes of the layout |
| Converter.Converter.PackPixel | tools/lvgl_image_converter/lv_img_converter/lv_img_converter.py:453-517 | each alpha and indexed branch cuts its sample and stores it at its computed position |
| Converter.Converter.ConvPx | tools/lvgl_image_converter/lv_img_converter/lv_img_converter.py:418-517 | extends the output by exactly the next pixel of the row and the accumulators by its error |
| Converter.Converter.EmitPalette | tools/lvgl_image_converter/lv_img_converter/lv_img_converter.py:155-163 | emits the palette entries, white beyond the colours in use |
| Converter.Converter.Convert | tools/lvgl_image_converter/lv_img_converter/lv_img_converter.py:124-169 | the output is the specified layout without holes, and the accumulators are those after all rows |
| ImageLayout.Rows | tools/lvgl_image_converter/lv_img_converter/lv_img_converter.py:165-169 | the output is the palette followed by h rows of equal length at the multiples of it |
| ImageLayout.PackedLayout | tools/lvgl_image_converter/lv_img_converter/lv_img_converter.py:453-517 | exact length, the field of every pixel holds its sample, that is its opacity to within one step or its index; padding is zero |
| ImageLayout.PackedRoundTrip | tools/lvgl_image_converter/lv_img_converter/lv_img_converter.py:453-517 | reading a row of the output back gives the quantised image row |
| ImageLayout.ColourLayout | tools/lvgl_image_converter/lv_img_converter/lv_img_converter.py:418-452 | pixel (x, y) lies at (y * w + x) times the pixel size and decodes to its level and alpha, within a step of the sample when not dithered, and of the value read, brought into 0..255, when dithered |
| ImageLayout.ErrorsCross | tools/lvgl_image_converter/lv_img_converter/lv_img_converter.py:519-593 | dithering acts across rows and across conversions: concrete white pixels of which the second, in the next row or the next call, is read as 257 |
| ImageLayout.PaletteLayout | tools/lvgl_image_converter/lv_img_converter/lv_img_converter.py:155-163 | entry i of the palette lies at 4 * i with the three bytes of its colour in either order and opacity 255, or is white beyond the colours in use |
| ImageLayout.OutputBytes | tools/lvgl_image_converter/lv_img_converter/lv_img_converter.py:393-416 | every element of the output fits a byte, as packing the binary file needs |
| ImageFile.Walk | tools/lvgl_image_converter/lv_img_converter/lv_img_converter.py:253-295 | the walk appends every byte behind the palette exactly once and in order |
| ImageFile.PrintedIsComplete | tools/lvgl_image_converter/lv_img_converter/lv_img_converter.py:297-324 | how long a prefix of the data the printed rows are; they are all of it iff rows fill whole bytes and the format is not RGB332 with alpha |
| ImageFile.LvCfTellsApart | tools/lvgl_image_converter/lv_img_converter/lv_img_converter.py:393-413 | the format numbers tell formats apart, those missing from the table aside |
| ImageFile.LvCfByDepth | tools/lvgl_image_converter/lv_img_converter/lv_img_converter.py:398-413 | indexed and alpha formats are numbered by depth from 7 and from 11 on |
| ImageFile.BinFileRoundTrip | tools/lvgl_image_converter/lv_img_converter/lv_img_converter.py:393-416 | the binary file can be written and decoded to format, size and content iff both sides are below 2048 |
| Bytes.LeRoundTrip | verify/zip_verify.c:98-113 | a little-endian number that fits its width is read back |
| Bytes.LeFour | verify/zip_verify.c:98-113 | four bytes stand for a number least significant byte first |
| ZipRecords.ParseBlock | verify/zip_verify.c:98-113 | cursor and length of a record, and the cursor after it |
| ZipRecords.ParseKvBlock | verify/zip_verify.c:118-133 | id and value of a pair, and the cursor after it |
| ZipRecords.SignatureInfo.Get | verify/zip_verify.c:200-227 | the fields filled in place, two of them over themselves, are those the format describes |
| ZipRecords.SignerRecovered | verify/zip_verify.c:200-227 | an encoded signer anywhere in a buffer is read back field by field, with every cursor inside its enclosing record |
| ZipRecords.CertificateRecovered | verify/zip_verify.c:214-219 | the certificate is found iff the signer has exactly one digest |
| ZipArchive.File.Read | verify/zip_verify.c:267-273 | what a read delivers under any schedule: a prefix of what was asked for, non-empty before the end, or failure, of a length fixed by the schedule |
| ZipArchive.ParseAppBlock | verify/zip_verify.c:138-195 | for any file, comment length and schedule: regions are found iff the three reads deliver what they ask for and the magic precedes the directory, and they are those of the 32 bit arithmetic, also when a seek is refused |
| ZipArchive.RegionsTile | verify/zip_verify.c:151-186 | for any file the regions tile it iff the end record fits, the directory lies less than 4 GiB before it and the signing block before the directory |
| ZipArchive.EocdInsideFile | verify/zip_verify.c:159-180 | the end record of located regions starts inside the file if below 2 GiB, also when the seek to it is refused |
| ZipArchive.DirectoryNotFarBehind | verify/zip_verify.c:154-183 | a located directory starts at most the length of the end record behind its start |
| ZipArchive.ArchiveRoundTrip | verify/zip_verify.c:138-189 | laying out data, signing block, directory and end record with any comment and parsing returns the four regions, which tile the file |
| ZipArchive.MagicSpells | verify/zip_verify.c:143-143 | the bytes in front of the directory spell APK Sig Block 42 |
| ZipArchive.RebuildsFile | verify/zip_verify.c:138-189 | the converse: a file whose regions are located is the one laid out from its own parts iff its two size fields agree and the comment length is right |
| ZipDigest.CountMatches | verify/zip_verify.c:90-93 | the chunk count hashed up front is the number of chunk digests of the section |
| ZipDigest.DigestAt | verify/zip_verify.c:256-311 | digest i of a section is the hash of 0xa5, the length of its i-th MiB in four bytes, and the bytes of that MiB |
| ZipDigest.ApkDigestIs | verify/zip_verify.c:316-367 | the content digest is the hash of 0x5a, the number of all chunks in four bytes, and the digests of the three sections in order |
| ZipDigest.SectionTamper | verify/zip_verify.c:256-311 | sections with as many chunks and the same digests are equal, or some chunk of them gives a hash collision |
| ZipDigest.ContentTamper | verify/zip_verify.c:316-367 | the same from the content digest to all three sections |
| ZipDigest.TilesUpTo2GiB | verify/zip_verify.c:285-300 | the chunks of a block are contiguous, non-empty, at most 1 MiB and cover it iff it has at most 2 GiB |
| ZipDigest.NoOverflowIs | verify/zip_verify.c:285-300 | the chunk offsets stay within an `int` iff the block has at most 2 GiB or its count wraps to 0 |
| ZipDigest.WrappedDirectory | verify/zip_verify.c:90-93 | a directory length wrapped by an offset behind the end record counts no chunk iff the offset is less than 1 MiB behind |
| ZipDigest.MdOneChunk | verify/zip_verify.c:256-283 | for every buffer size and schedule: whether all reads of the chunk deliver something, how many are made, and, when they do, the hash of 0xa5, the length and every byte of the region |
| ZipDigest.MdFileBlock | verify/zip_verify.c:285-311 | for every schedule: feeds what is specified of the block, a digest per chunk up to the first one that cannot be read, with the number of reads made |
| ZipDigest.FedChunks | verify/zip_verify.c:285-311 | what is fed of a block inside the file is a number of its chunk digests from the first on, all of them when it succeeds, and it succeeds when no read fails |
| ZipDigest.HashEocd | verify/zip_verify.c:341-354 | the hash of 0xa5, the length and the end record with its directory offset replaced by the signing block start, if it arrives in one read; else the result is that of the read, or the position cut to 32 bits from 2 GiB on |
| ZipDigest.VerifyDigest | verify/zip_verify.c:316-367 | for any regions without offset overflow and every schedule: zero is returned iff the digest is one of those specified as accepted |
| ZipDigest.ExactDigest | verify/zip_verify.c:316-367 | when no read fails, for every buffer size and schedule of short reads, exactly the specified content digest of the three sections is accepted, iff the one read of the end record is not cut |
| ZipDigest.OnlyPartialDigests | verify/zip_verify.c:338-339 | under every schedule only digests with chunks left out at the end of the first two sections are accepted besides |
| ZipDigest.DataNotRead | verify/zip_verify.c:338-339 | when just the first read fails, exactly the digest without the data section is accepted |
| ZipDigest.UncheckedDigest | verify/zip_verify.c:344-347 | every digest is accepted iff the end record starts at a multiple of 4 GiB, or at or past the end of the file without a failing read |
| ZipDigest.DataIsOmitted | verify/zip_verify.c:338-339 | the digest accepted then hashes something other than the specified input and does not depend on the contents of the data section |
| ZipDigest.CountsAgree | verify/zip_verify.c:329-331 | the counts computed in 32 bit arithmetic are those of the sections, and the end record is always one chunk |
| ZipVerify.VerifyApp | verify/zip_verify.c:372-429 | for files of any size and every schedule: success is returned iff the regions are found, the key file is found, algorithms agree, and, if the key opens, the signature verifies and the digest is one that is accepted |
| ZipVerify.AcceptedFiles | verify/zip_verify.c:372-429 | what that means for regions inside the file and an opened key: with complete reads exactly valid signatures with the specified content digest, from 2 GiB on the position of the end record alone; under every schedule valid signatures and partial digests at most |
| ZipVerify.AcceptedArchives | verify/zip_verify.c:372-429 | in terms of what was put into an archive of any size: with a readable key exactly those with matching algorithms, valid signature and the digest of the unsigned sections are accepted, or an end record at a multiple of 4 GiB instead of the digest; with a key that cannot be opened exactly those with matching algorithms |
| ZipVerify.TamperNoticed | verify/zip_verify.c:372-429 | two archives with the same signer and as many chunks that are both accepted, with complete reads and end records below 2 GiB, have the same data, directory and end record, or the hash collides on inputs named |
| ZipVerify.UnopenedKeyAccepts | verify/zip_verify.c:405-409 | a concrete archive that is rejected with a readable key, and accepted when the key file cannot be opened even if no signature is valid |
| ZipVerify.FourGiBAccepts | verify/zip_verify.c:344-345 | a concrete archive with its end record at 4 GiB that is accepted with every digest under every schedule |
| ZipVerify.UncheckedFiles | verify/zip_verify.c:344-347 | for located regions and every schedule, every digest is accepted iff the end record starts at a multiple of 4 GiB other than 0 |
| ZipVerify.DirectoryBehindUncounted | verify/zip_verify.c:183-183 | no chunk of a located directory behind the end record is counted or hashed |
| Milestones.Accumulate | tools/gen_ota_zip.py:334-338 | the running total and its floor after every part |
| Milestones.GenMilestones | tools/gen_ota_zip.py:330-340 | floors of the scaled running total, the last one the maximum |
| Milestones.GenDiffMilestones | tools/gen_ota_zip.py:102-118 | patches first, then new partitions in a second range, the last one the maximum |
| Milestones.NoNewPartitions | tools/gen_ota_zip.py:102-118 | without new partitions the list is exactly that of a full package of the patches |
| Milestones.MilestonesRise | tools/gen_ota_zip.py:330-340 | milestones rise within 30..100 to the maximum iff the end script keeps 0 to 70 |
| Milestones.NewPartitionsOvershoot | tools/gen_ota_zip.py:112-118 | with new partitions they rise within 30..100 iff the end script keeps 0 to 70 and the weight of all but the last times the span of the second range is below the weight of all new images and not negative; the maximum must then be at least 70 when that weight is positive |
| Milestones.FirstNewIsFirst | tools/gen_ota_zip.py:105-118 | the first new milestone equals the first of all iff the first patch has all the weight of the patches or the end script keeps their whole range |
| Milestones.MilestoneShares | tools/gen_ota_zip.py:102-118 | every milestone but the last is 30, or the maximum for new partitions, plus the share of the weights up to it of the range, rounded down |
| OtaScript.InstallText | tools/gen_ota_zip.py:385-408 | a verification line iff the stem is listed, then the installation |
| OtaScript.StemIs | tools/gen_ota_zip.py:385-389 | the name compared with the verification list is the file name between its prefix and its extension |
| OtaScript.TargetIs | tools/gen_ota_zip.py:183-195 | a new partition goes to the device of that name |
| OtaScript.GenFullSh | tools/gen_ota_zip.py:311-428 | the emitted script is header, device checks, installations with reports, and tail, over those milestones |
| OtaScript.GenDiffSh | tools/gen_ota_zip.py:68-212 | the emitted script is header, test for the last file, patches, installation of the new partitions and tail, over those milestones |
| OtaScript.UserScripts | tools/gen_ota_zip.py:68-212 | a script of this form runs the begin script before everything else and the end script after everything else, between announcing and reporting 100 |
| OtaScript.FullScriptIsFramed | tools/gen_ota_zip.py:311-428 | the full script has that form |
| OtaScript.DiffScriptIsFramed | tools/gen_ota_zip.py:68-212 | the differential script has that form |
| OtaRuns.NothingWrittenOnFailedChecks | tools/gen_ota_zip.py:353-381 | if the version check fails or a device is missing, no partition is written and progress is -1 |
| OtaRuns.SuccessfulRun | tools/gen_ota_zip.py:383-426 | if everything succeeds, every part not skipped is installed in order and the last milestone is reported |
| OtaRuns.InstalledExactly | tools/gen_ota_zip.py:383-414 | each device holds the image of the last part for it that was not skipped, or what it held before when there is none |
| OtaRuns.DeviceAfterFullRun | tools/gen_ota_zip.py:341-426 | the same about a whole run of the full script in which checks and copies succeed |
| OtaRuns.FailedCopyRun | tools/gen_ota_zip.py:395-403 | a failed copy reboots at once: earlier parts installed, its target damaged, later ones untouched |
| OtaRuns.SuccessfulDiffRun | tools/gen_ota_zip.py:119-212 | if everything succeeds, all patches are applied iff the last file was missing and all new partitions installed; the value reported last, which is 30 when nothing was to be done |
| OtaRuns.DeviceAfterDiffRun | tools/gen_ota_zip.py:145-200 | each device holds the image of the last new partition for it, else the patched one, else what it held before |
| OtaRuns.FailedPatchRun | tools/gen_ota_zip.py:132-176 | a failed version check or patch exits with -1: nothing, or the patches before it and its own damaged target, were written, and no new partition |
| OtaRuns.FailedAdditionRun | tools/gen_ota_zip.py:181-200 | a failed installation of a new partition reboots at once with everything before it in place |
| ScriptOrder.FullScriptClimbs | tools/gen_ota_zip.py:341-426 | reported values rise from 30 to at most 100 and never exceed the announced next one iff the milestones rise within 30..100; they end on the maximum or 100 |
| ScriptOrder.DiffScriptClimbs | tools/gen_ota_zip.py:119-212 | the same for a differential package, whether its block is entered or not; with new partitions reported values stay below the announced one iff, besides, the first new milestone equals the first of all |
| ScriptOrder.FullPackageClimbs | tools/gen_ota_zip.py:330-426 | from file sizes: the script of a full package climbs iff the end script keeps 0 to 70 |
| ScriptOrder.DiffPackageClimbs | tools/gen_ota_zip.py:102-212 | from file sizes: the script of a differential package climbs iff the end script keeps 0 to 70 and there are no new partitions or the weight condition on them holds; reported values stay below the announced one iff, besides, there are no new partitions, the first patch has all the weight of the patches, or the end script keeps 70 |
| OtaUi.Display.CalcProgress | ui/ui_ota.c:41-58 | one tick, with the counters incremented as the conditions are tested |
| OtaUi.Display.Sync | ui/ui_ota.c:71-77 | both nodes replaced by what was read, the display unchanged |
| OtaUi.Display.Round | ui/ui_ota.c:153-185 | the page shown, the tick taken and the end of the loop for every mode and reading, with a failing page call ending it |
| OtaUi.Display.Finish | ui/ui_ota.c:153-185 | once 100 is reported the loop ends at the first failing page call or showing 100, within three rounds per remaining step, for every schedule of syncs |
| OtaUi.CountersStayBounded | ui/ui_ota.c:41-58 | the static counters never exceed 2 and 100 |
| OtaUi.CatchesUp | ui/ui_ota.c:41-58 | with a stable report p the display reaches exactly p within 3 * (p - current) ticks |
| OtaUi.FastRate | ui/ui_ota.c:41-58 | behind the report a step is taken after exactly three ticks, less those counted, unless a slow step falls due |
| OtaUi.SlowStepDue | ui/ui_ota.c:41-58 | a slow step that falls due is taken |
| OtaUi.CatchesUpExactly | ui/ui_ota.c:41-58 | with no slow step due it is level with the report after exactly three ticks a step, less those counted |
| OtaUi.CrawlsTowardsNext | ui/ui_ota.c:41-58 | past the report it never passes the next node, and moves no faster than a step in 101 ticks |
| OtaUi.CrawlRate | ui/ui_ota.c:41-58 | past the report a step is taken after exactly 101 ticks, less those counted, and none before |
| OtaUi.CrawlsToTarget | ui/ui_ota.c:41-58 | so every value up to the next node, and to 99, is reached after exactly 101 ticks a step, less those counted |
| OtaUi.StaysThere | ui/ui_ota.c:41-58 | at the next node or at 99 the display stays until another report |
| ProgressRuns.InvStep | ui/ui_ota.c:41-77 | every script line, property read or round keeps what a climbing script keeps and, if less than 100 was left in the progress property, that only the script brings 100 into it and onto the display |
| ProgressRuns.ReportedFirst | ui/ui_ota.c:41-77 | under every interleaving with a climbing script the display shows 100 only after 100 was reported, if less than 100 was left in the progress property; whatever was left, the reported property stays at or below the announced one from the opening on when the script does so |
| ProgressRuns.HundredShownEarly | ui/ui_ota.c:153-185 | over all interleavings with a climbing script the display can show 100 without a report of 100, and even before the first report, iff 100 or more was left in the progress property |
| ProgressRuns.NeverGoesBack | ui/ui_ota.c:153-185 | for every script, whatever the properties held and under every interleaving, a display started at 99 or below never goes back and never passes 100 |
| ProgressRuns.FullPackageDisplay | tools/gen_ota_zip.py:330-426 | from file sizes to the display: for every full package the display never goes back, can show 100 too early iff it was left by an earlier run, and the reported property never exceeds the announced one |
| ProgressRuns.DiffPackageDisplay | tools/gen_ota_zip.py:102-212 | the same for every differential package, the last two when its milestones rise, the announced bound under the exact condition on the weights |
| ProgressRuns.NewPartitionOvertakes | tools/gen_ota_zip.py:165-200 | when the patches are skipped and neither condition on the weights holds, the reported property overtakes the announced one |
| ProgressRuns.OvertakingPackage | tools/gen_ota_zip.py:105-200 | a concrete package, two patches and a new partition of one size, that reports 100 while 65 is announced |
| ProgressRuns.HighStartGoesBack | ui/ui_ota.c:54-56 | while less than 100 is reported a tick lowers the display iff it shows 100 or more, so the bound on the start is needed |
| UpgradeWidget.ClosestIndex | ui/extra/lv_upgrade.c:189-207 | the first nearest key, which is unique, itself when it is not the last or is matched, else the one before |
| UpgradeWidget.IndexInRange | ui/extra/lv_upgrade.c:202-206 | an image exists iff there are two keys or the only one is matched |
| UpgradeWidget.LastOnlyOnExactMatch | ui/extra/lv_upgrade.c:202-206 | the last image stands for its own key only |
| UpgradeWidget.ShownMonotone | ui/extra/lv_upgrade.c:189-207 | the bar never goes back as the value grows up to the last key |
| UpgradeWidget.TruncatesToZero | ui/extra/lv_upgrade.c:600-601 | quotient and remainder of any `int` make it up again, the remainder with its sign |
| UpgradeWidget.DigitsShape | ui/extra/lv_upgrade.c:592-603 | below 2^31 the used digits are decimal, start at the last position, have no leading zero, and are as many as a value below 1000 has |
| UpgradeWidget.Upgrade.SetProgress | ui/extra/lv_upgrade.c:583-607 | digits and 8 bit cache after an update to any 32 bit value, or no change when the cache names the value |
| UpgradeWidget.Upgrade.GetValue | ui/extra/lv_upgrade.c:635-653 | the number the digits in use stand for |
| UpgradeWidget.ReadsBackLast | ui/extra/lv_upgrade.c:583-653 | after any sequence of updates in 0..255 the last value is read back |
| UpgradeWidget.CacheAliasing | ui/extra/lv_upgrade.c:592-607 | an update to any 32 bit value is followed correctly by every later one iff its cached byte is negative or is the value shown |

## Left out

- VerifyApp: takes the signing block to lie inside the file and the record lengths in it to stay inside it, which the C code follows without checking; the unchecked reads of the signing block and of the opened key are taken to be complete.
- OnlyPartialDigests: which chunks are left out is exact only in terms of the schedule; for regions that lie partly outside the file only the specification of what is accepted speaks.
- MdFileBlock: blocks whose `int` chunk offset overflows, which C leaves undefined; NoOverflowIs states which they are. VerifyDigest and VerifyApp inherit that limit.
- TilesUpTo2GiB: `int` overflow, undefined in C, is taken to wrap around; so is `abs` of the smallest `int` in ClosestIndex.
- WriteConfig: a write that returned is taken to last, whether or not the commit after it was reached.
- GenFullSh: an empty package or one of weight zero raises an exception and is excluded; the same holds for GenDiffSh.
- DeviceAfterFullRun: that targets are `/dev/` followed by the stem is modelled for new partitions only, other targets are given next to the file names.
- FullPackageDisplay: user scripts are taken not to touch the progress properties.
- CrawlRate: the slow rate is stated for a display that has reached the last report; before that the fast steps reset its counter.
- Opening and closing files other than the key, memory allocation and their failures.
- `avb_verify`, `avb_slot_verify` and the RSA and SHA-256 implementations.
- Pillow: palette selection, colour conversion and the reset of the image after an indexed conversion; the pixel grid is an input of every conversion.
- RAW formats, C headers and footers, and the text formatting of the C array.
- argument parsing, directory walks, zip writing, signing, the delta tool, configuration parsing, and the choice of files in gen_ota_zip.py.
- LVGL drawing, animation, page parsing and object trees; the percent sign and the circle and animation modes of the widget.
- the `-t` option of the display and the reboot command after the loop.
- rounding of floating point milestone sums.
