/** The update scripts written by gen_ota_zip and the generators that write them. */
module OtaScript {
  import opened Milestones

  /** One construct of the emitted shell text. InBlock marks the body of the
      `if [ ! -e <file> ]` around the patch steps. InstallIfOk is guarded by the result
      of a verification before it, Install is not. */
  datatype Cmd =
    | SetCurrent(value: int)
    | SetNext(value: int)
    | UserText
    | KeepVersion
    | CheckVersion(version: int)
    | CheckDevice(path: string)
    | ResetRet
    | AvbVerify(file: string)
    | InstallIfOk(file: string, path: string)
    | TestMissing(file: string)
    | ApplyPatch(path: string)
    | Install(file: string, path: string)

  datatype Line = Plain(cmd: Cmd) | InBlock(cmd: Cmd)

  datatype Options = Options(version: int, skipVersionCheck: bool, verify: seq<string>, endProgress: int,
                             beginScript: bool, endScript: bool)

  /** `vela_<stem>.<ext>` without prefix and extension. */
  function Stem(bin: string): string {
    if |bin| >= 9 then bin[5..|bin| - 4] else []
  }

  lemma StemIs(s: string, ext: string)
    requires |ext| == 4
    ensures Stem("vela_" + s + ext) == s
  {
    var bin := "vela_" + s + ext;
    assert bin[5..|bin| - 4] == s;
  }

  // ----- full package

  function Verified(opt: Options, bin: string): bool {
    Stem(bin) in opt.verify
  }

  function Header(opt: Options, first: int): seq<Line> {
    (if opt.beginScript then [Plain(UserText)] else [])
    + [Plain(SetCurrent(30)), Plain(SetNext(first))]
    + [Plain(if opt.skipVersionCheck then KeepVersion else CheckVersion(opt.version))]
  }

  function Guards(paths: seq<string>, k: nat): seq<Line>
    requires k <= |paths|
  {
    if k == 0 then [] else Guards(paths, k - 1) + [Plain(CheckDevice(paths[k - 1]))]
  }

  /** The lines that install part i. */
  function InstallLines(paths: seq<string>, bins: seq<string>, opt: Options, i: nat): seq<Line>
    requires i < |bins| == |paths|
  {
    [Plain(ResetRet)]
    + (if Verified(opt, bins[i]) then [Plain(AvbVerify(bins[i]))] else [])
    + [Plain(InstallIfOk(bins[i], paths[i]))]
  }

  function ReportLines(list: seq<int>, i: nat): seq<Line>
    requires i < |list|
  {
    [Plain(SetCurrent(list[i]))] + if i + 1 < |list| then [Plain(SetNext(list[i + 1]))] else []
  }

  function Installs(paths: seq<string>, bins: seq<string>, list: seq<int>, opt: Options, k: nat): seq<Line>
    requires k <= |bins| == |paths| == |list|
  {
    if k == 0 then []
    else Installs(paths, bins, list, opt, k - 1)
         + (InstallLines(paths, bins, opt, k - 1) + ReportLines(list, k - 1))
  }

  function Tail(opt: Options): seq<Line> {
    if opt.endScript then [Plain(SetNext(100)), Plain(UserText), Plain(SetCurrent(100))] else []
  }

  function FullScript(paths: seq<string>, bins: seq<string>, list: seq<int>, opt: Options): seq<Line>
    requires 0 < |bins| == |paths| == |list|
  {
    Header(opt, list[0]) + Guards(paths, |paths|) + Installs(paths, bins, list, opt, |bins|) + Tail(opt)
  }

  /** The opening both generators write. */
  method HeaderText(opt: Options, first: int) returns (text: seq<Line>)
    ensures text == Header(opt, first)
  {
    text := [];
    if opt.beginScript {
      text := text + [Plain(UserText)];
    }
    text := text + [Plain(SetCurrent(30)), Plain(SetNext(first))];
    if opt.skipVersionCheck {
      text := text + [Plain(KeepVersion)];
    } else {
      text := text + [Plain(CheckVersion(opt.version))];
    }
  }

  method TailText(opt: Options) returns (text: seq<Line>)
    ensures text == Tail(opt)
  {
    text := [];
    if opt.endScript {
      text := text + [Plain(SetNext(100))];
      text := text + [Plain(UserText)];
      text := text + [Plain(SetCurrent(100))];
    }
  }

  /** `gen_full_sh`: computes the milestones and writes the script front to back. */
  method GenFullSh(paths: seq<string>, bins: seq<string>, sizes: seq<real>, opt: Options)
    returns (script: seq<Line>, list: seq<int>)
    requires 0 < |bins| == |paths| == |sizes| && Sum(sizes) > 0.0
    ensures IsMilestones(sizes, 100 - opt.endProgress, list)
    ensures script == FullScript(paths, bins, list, opt)
  {
    hide Header, Tail, IsMilestones, Verified;
    list := GenMilestones(sizes, opt.endProgress);
    script := HeaderText(opt, list[0]);
    var i := 0;
    while i < |paths|
      invariant i <= |paths| && script == Header(opt, list[0]) + Guards(paths, i)
    {
      script := script + [Plain(CheckDevice(paths[i]))];
      i := i + 1;
    }
    i := 0;
    ghost var top := script;
    while i < |paths|
      invariant i <= |paths| && script == top + Installs(paths, bins, list, opt, i)
    {
      var text := InstallText(paths, bins, opt, i);
      text := text + [Plain(SetCurrent(list[i]))];
      if i + 1 < |paths| {
        text := text + [Plain(SetNext(list[i + 1]))];
      }
      assert text == InstallLines(paths, bins, opt, i) + ReportLines(list, i);
      script := script + text;
      i := i + 1;
    }
    var end := TailText(opt);
    script := script + end;
  }

  /** The text installing part i, with a verification when its stem is listed. */
  method InstallText(paths: seq<string>, bins: seq<string>, opt: Options, i: nat) returns (text: seq<Line>)
    requires i < |bins| == |paths|
    ensures text == InstallLines(paths, bins, opt, i)
  {
    text := [Plain(ResetRet)];
    var j := 0;
    while j < |opt.verify|
      invariant j <= |opt.verify| && Stem(bins[i]) !in opt.verify[..j]
      invariant text == [Plain(ResetRet)]
    {
      if opt.verify[j] == Stem(bins[i]) {
        text := text + [Plain(AvbVerify(bins[i]))];
        break;
      }
      j := j + 1;
    }
    text := text + [Plain(InstallIfOk(bins[i], paths[i]))];
  }

  // ----- differential package

  function PatchLines(paths: seq<string>, list: seq<int>, i: nat): seq<Line>
    requires i < |paths| <= |list|
  {
    [InBlock(ApplyPatch(paths[i])), InBlock(SetCurrent(list[i]))]
    + if i + 1 < |paths| then [InBlock(SetNext(list[i + 1]))] else []
  }

  function Patches(paths: seq<string>, list: seq<int>, k: nat): seq<Line>
    requires k <= |paths| <= |list|
  {
    if k == 0 then [] else Patches(paths, list, k - 1) + PatchLines(paths, list, k - 1)
  }

  /** The partition a file is installed to. */
  function Target(file: string): string {
    "/dev/" + Stem(file)
  }

  lemma TargetIs(s: string, ext: string)
    requires |ext| == 4
    ensures Target("vela_" + s + ext) == "/dev/" + s
  {
    StemIs(s, ext);
  }

  /** The lines that install new partition i, which is part n + i of the package. */
  function AdditionLines(added: seq<string>, list: seq<int>, n: nat, i: nat): seq<Line>
    requires i < |added| && n + |added| == |list|
  {
    [Plain(Install(added[i], Target(added[i])))] + ReportLines(list, n + i)
  }

  function Additions(added: seq<string>, list: seq<int>, n: nat, k: nat): seq<Line>
    requires k <= |added| && n + |added| == |list|
  {
    if k == 0 then [] else Additions(added, list, n, k - 1) + AdditionLines(added, list, n, k - 1)
  }

  function DiffScript(paths: seq<string>, bins: seq<string>, added: seq<string>, list: seq<int>,
                      opt: Options): seq<Line>
    requires 0 < |bins| == |paths| && |list| == |bins| + |added|
  {
    Header(opt, list[0])
    + ([Plain(TestMissing(bins[|bins| - 1]))]
       + (Patches(paths, list, |paths|) + Additions(added, list, |bins|, |added|) + Tail(opt)))
  }

  /** `gen_diff_ota_sh`: patches for the files in `bins`, then the new partitions. */
  method GenDiffSh(paths: seq<string>, bins: seq<string>, added: seq<string>, patchSizes: seq<real>,
                   binSizes: seq<real>, addedSizes: seq<real>, opt: Options)
    returns (script: seq<Line>, list: seq<int>)
    requires 0 < |bins| == |paths| == |patchSizes| == |binSizes| && |added| == |addedSizes|
    requires Sum(patchSizes) > 0.0 && (added != [] ==> Sum(binSizes + addedSizes) > 0.0)
    ensures IsDiffMilestones(patchSizes, addedSizes, Sum(binSizes + addedSizes), 100 - opt.endProgress, list)
    ensures script == DiffScript(paths, bins, added, list, opt)
  {
    list := GenDiffMilestones(patchSizes, binSizes, addedSizes, opt.endProgress);
    script := HeaderText(opt, list[0]);
    script := script + [Plain(TestMissing(bins[|bins| - 1]))];
    var patches := PatchText(paths, list);
    script := script + patches;
    var additions := AdditionText(added, list, |bins|);
    script := script + additions;
    var end := TailText(opt);
    script := script + end;
    hide Header, Tail, Patches, Additions, IsDiffMilestones;
    Grouped(Header(opt, list[0]), [Plain(TestMissing(bins[|bins| - 1]))], patches, additions, Tail(opt));
  }

  lemma Grouped(head: seq<Line>, test: seq<Line>, patches: seq<Line>, additions: seq<Line>, tail: seq<Line>)
    ensures head + test + patches + additions + tail == head + (test + (patches + additions + tail))
  {
  }

  /** The patch steps, in a block that is entered when the last file is missing. */
  method PatchText(paths: seq<string>, list: seq<int>) returns (text: seq<Line>)
    requires |paths| <= |list|
    ensures text == Patches(paths, list, |paths|)
  {
    text := [];
    var i := 0;
    while i < |paths|
      invariant i <= |paths| && text == Patches(paths, list, i)
    {
      var lines := [InBlock(ApplyPatch(paths[i]))];
      lines := lines + [InBlock(SetCurrent(list[i]))];
      if i + 1 < |paths| {
        lines := lines + [InBlock(SetNext(list[i + 1]))];
      }
      assert lines == PatchLines(paths, list, i);
      text := text + lines;
      i := i + 1;
    }
  }

  /** The installation of the new partitions. */
  method AdditionText(added: seq<string>, list: seq<int>, n: nat) returns (text: seq<Line>)
    requires n + |added| == |list|
    ensures text == Additions(added, list, n, |added|)
  {
    text := [];
    var i := 0;
    while i < |added|
      invariant i <= |added| && text == Additions(added, list, n, i)
    {
      var lines := [Plain(Install(added[i], Target(added[i])))];
      lines := lines + [Plain(SetCurrent(list[n + i]))];
      if n + i < |list| - 1 {
        lines := lines + [Plain(SetNext(list[n + i + 1]))];
      }
      assert lines == AdditionLines(added, list, n, i);
      text := text + lines;
      i := i + 1;
    }
  }

  // ----- the user's scripts

  /** A begin script runs before everything else, and an end script after everything else,
      between the announcement and the report of 100. */
  lemma UserScripts(opt: Options, first: int, middle: seq<Line>)
    ensures var script := Header(opt, first) + middle + Tail(opt);
            && (opt.beginScript <==> script[0] == Plain(UserText))
            && (opt.endScript ==>
                  script[|script| - 3..] == [Plain(SetNext(100)), Plain(UserText), Plain(SetCurrent(100))])
            && (!opt.endScript ==> script == Header(opt, first) + middle)
  {
    var script := Header(opt, first) + middle + Tail(opt);
    assert script[0] == Header(opt, first)[0];
    assert script[|script| - |Tail(opt)|..] == Tail(opt);
  }

  /** Both scripts are of that form. */
  lemma FullScriptIsFramed(paths: seq<string>, bins: seq<string>, list: seq<int>, opt: Options)
    requires 0 < |bins| == |paths| == |list|
    ensures FullScript(paths, bins, list, opt) ==
            Header(opt, list[0]) + (Guards(paths, |paths|) + Installs(paths, bins, list, opt, |bins|)) + Tail(opt)
  {
    hide Header, Tail, Guards, Installs;
    Regroup(Header(opt, list[0]), Guards(paths, |paths|), Installs(paths, bins, list, opt, |bins|), Tail(opt));
  }

  lemma DiffScriptIsFramed(paths: seq<string>, bins: seq<string>, added: seq<string>, list: seq<int>, opt: Options)
    requires 0 < |bins| == |paths| && |list| == |bins| + |added|
    ensures DiffScript(paths, bins, added, list, opt) ==
            Header(opt, list[0])
            + ([Plain(TestMissing(bins[|bins| - 1]))]
               + (Patches(paths, list, |paths|) + Additions(added, list, |bins|, |added|)))
            + Tail(opt)
  {
    hide Header, Tail, Patches, Additions;
    var head, test, tail := Header(opt, list[0]), [Plain(TestMissing(bins[|bins| - 1]))], Tail(opt);
    RegroupTail(head, test, Patches(paths, list, |paths|) + Additions(added, list, |bins|, |added|), tail);
  }

  lemma Regroup(a: seq<Line>, b: seq<Line>, c: seq<Line>, d: seq<Line>)
    ensures a + b + c + d == a + (b + c) + d
  {
    assert a + b + c == a + (b + c);
  }

  lemma RegroupTail(a: seq<Line>, b: seq<Line>, c: seq<Line>, d: seq<Line>)
    ensures a + (b + (c + d)) == a + (b + c) + d
  {
    assert b + (c + d) == b + c + d;
  }
}
