/** What running an update script does to the device: partitions, reported progress,
    and how the run ends. */
module OtaRuns {
  import opened OtaScript

  type Image = seq<int>

  datatype Status = Running | Exited | Rebooted

  /** `block` is the outcome of the last TestMissing. */
  datatype Device = Device(parts: map<string, Image>, current: int, next: int, ret: int, block: bool, status: Status)

  /** What the script meets: installed version, device nodes and files present, package
      contents, which verifications, copies and patches succeed, what a patch makes of a
      partition, and what a failed copy or patch leaves behind. */
  datatype World = World(version: int, devices: set<string>, files: set<string>, package: string -> Image,
                         verifyOk: string -> bool, copyOk: string -> bool, patchOk: string -> bool,
                         patched: string -> Image, torn: string -> Image, halfPatched: string -> Image)

  function Do(w: World, d: Device, c: Cmd): Device {
    match c
    case SetCurrent(v) => d.(current := v)
    case SetNext(v) => d.(next := v)
    case UserText => d
    case KeepVersion => d
    case CheckVersion(v) => if v < w.version then d.(current := -1, status := Exited) else d
    case CheckDevice(p) => if p !in w.devices then d.(current := -1, status := Exited) else d
    case ResetRet => d.(ret := 0)
    case AvbVerify(f) => d.(ret := if w.verifyOk(f) then 0 else 1)
    case InstallIfOk(f, p) => if d.ret != 0 then d else Copy(w, d, f, p)
    case TestMissing(f) => d.(block := f !in w.files)
    case ApplyPatch(p) =>
      if w.patchOk(p) then d.(parts := d.parts[p := w.patched(p)])
      else d.(parts := d.parts[p := w.halfPatched(p)], current := -1, status := Exited)
    case Install(f, p) => Copy(w, d, f, p)
  }

  /** `dd`, with the reboot that follows a failure. */
  function Copy(w: World, d: Device, file: string, path: string): Device {
    if w.copyOk(file) then d.(parts := d.parts[path := w.package(file)])
    else d.(parts := d.parts[path := w.torn(file)], status := Rebooted)
  }

  function Step(w: World, d: Device, l: Line): Device {
    if !d.status.Running? || (l.InBlock? && !d.block) then d else Do(w, d, l.cmd)
  }

  function Exec(w: World, d: Device, script: seq<Line>): Device
    decreases |script|
  {
    if script == [] then d else Exec(w, Step(w, d, script[0]), script[1..])
  }

  lemma {:induction false} ExecConcat(w: World, d: Device, s: seq<Line>, t: seq<Line>)
    ensures Exec(w, d, s + t) == Exec(w, Exec(w, d, s), t)
    decreases |s|
  {
    if s == [] {
      assert s + t == t;
    } else {
      ExecConcat(w, Step(w, d, s[0]), s[1..], t);
      assert (s + t)[1..] == s[1..] + t;
    }
  }

  lemma {:induction false} ExecStopped(w: World, d: Device, s: seq<Line>)
    requires !d.status.Running?
    ensures Exec(w, d, s) == d
    decreases |s|
  {
    if s != [] {
      ExecStopped(w, d, s[1..]);
    }
  }

  // ----- full package: nothing is written unless everything checks out

  predicate VersionOk(w: World, opt: Options) {
    opt.skipVersionCheck || opt.version >= w.version
  }

  predicate AllPresent(w: World, paths: seq<string>, k: nat)
    requires k <= |paths|
  {
    forall i :: 0 <= i < k ==> paths[i] in w.devices
  }

  lemma HeaderRun(w: World, d: Device, opt: Options, first: int)
    requires d.status.Running?
    ensures var r := Exec(w, d, Header(opt, first));
            && r.parts == d.parts
            && (if VersionOk(w, opt) then r == d.(current := 30, next := first)
                else r.current == -1 && r.status == Exited)
  {
    var begin := if opt.beginScript then [Plain(UserText)] else [];
    var check := Plain(if opt.skipVersionCheck then KeepVersion else CheckVersion(opt.version));
    var d2 := d.(current := 30, next := first);
    ExecConcat(w, d, begin + [Plain(SetCurrent(30)), Plain(SetNext(first))], [check]);
    ExecConcat(w, d, begin, [Plain(SetCurrent(30)), Plain(SetNext(first))]);
    assert Exec(w, d, begin) == d;
    ExecTwo(w, d, Plain(SetCurrent(30)), Plain(SetNext(first)));
    ExecOne(w, d2, check);
  }

  lemma ExecOne(w: World, d: Device, a: Line)
    ensures Exec(w, d, [a]) == Step(w, d, a)
  {
    assert [a][1..] == [];
  }

  lemma ExecTwo(w: World, d: Device, a: Line, b: Line)
    ensures Exec(w, d, [a, b]) == Step(w, Step(w, d, a), b)
  {
    assert [a, b][1..] == [b];
    ExecOne(w, Step(w, d, a), b);
  }

  lemma {:induction false} GuardsRun(w: World, d: Device, paths: seq<string>, k: nat)
    requires d.status.Running? && k <= |paths|
    ensures var r := Exec(w, d, Guards(paths, k));
            && r.parts == d.parts
            && (if AllPresent(w, paths, k) then r == d else r.current == -1 && r.status == Exited)
  {
    if k > 0 {
      GuardsRun(w, d, paths, k - 1);
      ExecConcat(w, d, Guards(paths, k - 1), [Plain(CheckDevice(paths[k - 1]))]);
      ExecOne(w, Exec(w, d, Guards(paths, k - 1)), Plain(CheckDevice(paths[k - 1])));
    }
  }

  /** If the version check fails or any target device is missing, no partition is
      written and the reported progress is -1. */
  lemma NothingWrittenOnFailedChecks(w: World, d: Device, paths: seq<string>, bins: seq<string>,
                                     list: seq<int>, opt: Options)
    requires 0 < |bins| == |paths| == |list| && d.status.Running?
    requires (!opt.skipVersionCheck && opt.version < w.version)
             || exists i :: 0 <= i < |paths| && paths[i] !in w.devices
    ensures var r := Exec(w, d, FullScript(paths, bins, list, opt));
            r.parts == d.parts && r.current == -1 && r.status == Exited
  {
    var head, guards := Header(opt, list[0]), Guards(paths, |paths|);
    var installs := Installs(paths, bins, list, opt, |bins|);
    ExecConcat(w, d, head + guards + installs, Tail(opt));
    ExecConcat(w, d, head + guards, installs);
    ExecConcat(w, d, head, guards);
    HeaderRun(w, d, opt, list[0]);
    if VersionOk(w, opt) {
      GuardsRun(w, Exec(w, d, head), paths, |paths|);
    } else {
      ExecStopped(w, Exec(w, d, head), guards);
    }
    ExecStopped(w, Exec(w, d, head + guards), installs);
    ExecStopped(w, Exec(w, d, head + guards), Tail(opt));
  }

  // ----- full package: what is installed

  predicate Skipped(w: World, opt: Options, bin: string) {
    Verified(opt, bin) && !w.verifyOk(bin)
  }

  /** Partitions after the first k parts: each part that is not skipped replaces its target. */
  function Installed(w: World, opt: Options, paths: seq<string>, bins: seq<string>, k: nat,
                     parts: map<string, Image>): map<string, Image>
    requires k <= |bins| == |paths|
  {
    if k == 0 then parts
    else
      var before := Installed(w, opt, paths, bins, k - 1, parts);
      if Skipped(w, opt, bins[k - 1]) then before else before[paths[k - 1] := w.package(bins[k - 1])]
  }

  lemma InstallRun(w: World, d: Device, paths: seq<string>, bins: seq<string>, opt: Options, i: nat)
    requires i < |bins| == |paths| && d.status.Running?
    ensures var r := Exec(w, d, InstallLines(paths, bins, opt, i));
            var ret := if Skipped(w, opt, bins[i]) then 1 else 0;
            if Skipped(w, opt, bins[i]) then r == d.(ret := 1)
            else if w.copyOk(bins[i]) then r == d.(ret := 0, parts := d.parts[paths[i] := w.package(bins[i])])
            else r == d.(ret := 0, parts := d.parts[paths[i] := w.torn(bins[i])], status := Rebooted)
  {
    var check := if Verified(opt, bins[i]) then [Plain(AvbVerify(bins[i]))] else [];
    var install := Plain(InstallIfOk(bins[i], paths[i]));
    ExecConcat(w, d, [Plain(ResetRet)] + check, [install]);
    ExecConcat(w, d, [Plain(ResetRet)], check);
    ExecOne(w, d, Plain(ResetRet));
    var d1 := d.(ret := 0);
    if Verified(opt, bins[i]) {
      ExecOne(w, d1, Plain(AvbVerify(bins[i])));
    }
    ExecOne(w, Exec(w, d, [Plain(ResetRet)] + check), install);
  }

  lemma ReportRun(w: World, d: Device, list: seq<int>, i: nat)
    requires i < |list| && d.status.Running?
    ensures Exec(w, d, ReportLines(list, i)) ==
            d.(current := list[i], next := if i + 1 < |list| then list[i + 1] else d.next)
  {
    var more := if i + 1 < |list| then [Plain(SetNext(list[i + 1]))] else [];
    ExecConcat(w, d, [Plain(SetCurrent(list[i]))], more);
    ExecOne(w, d, Plain(SetCurrent(list[i])));
    if i + 1 < |list| {
      ExecOne(w, d.(current := list[i]), Plain(SetNext(list[i + 1])));
    }
  }

  predicate AllCopied(w: World, opt: Options, bins: seq<string>, k: nat)
    requires k <= |bins|
  {
    forall i :: 0 <= i < k ==> Skipped(w, opt, bins[i]) || w.copyOk(bins[i])
  }

  lemma {:induction false} InstallsRun(w: World, d: Device, paths: seq<string>, bins: seq<string>,
                                       list: seq<int>, opt: Options, k: nat)
    requires k <= |bins| == |paths| == |list| && d.status.Running? && AllCopied(w, opt, bins, k)
    ensures var r := Exec(w, d, Installs(paths, bins, list, opt, k));
            && r.parts == Installed(w, opt, paths, bins, k, d.parts)
            && r.status == Running
            && (k > 0 ==> r.current == list[k - 1])
  {
    if k > 0 {
      InstallsRun(w, d, paths, bins, list, opt, k - 1);
      var before := Exec(w, d, Installs(paths, bins, list, opt, k - 1));
      var lines, report := InstallLines(paths, bins, opt, k - 1), ReportLines(list, k - 1);
      ExecConcat(w, d, Installs(paths, bins, list, opt, k - 1), lines + report);
      ExecConcat(w, before, lines, report);
      InstallRun(w, before, paths, bins, opt, k - 1);
      ReportRun(w, Exec(w, before, lines), list, k - 1);
    }
  }

  /** If all checks and copies succeed, the run ends normally with every part that was
      not skipped by verification installed in order, and with the last milestone, or
      100 after an end script, reported. */
  lemma SuccessfulRun(w: World, d: Device, paths: seq<string>, bins: seq<string>, list: seq<int>, opt: Options)
    requires 0 < |bins| == |paths| == |list| && d.status.Running?
    requires VersionOk(w, opt) && AllPresent(w, paths, |paths|) && AllCopied(w, opt, bins, |bins|)
    ensures var r := Exec(w, d, FullScript(paths, bins, list, opt));
            && r.parts == Installed(w, opt, paths, bins, |bins|, d.parts)
            && r.status == Running
            && r.current == if opt.endScript then 100 else list[|list| - 1]
  {
    var head, guards := Header(opt, list[0]), Guards(paths, |paths|);
    var installs := Installs(paths, bins, list, opt, |bins|);
    ExecConcat(w, d, head + guards + installs, Tail(opt));
    ExecConcat(w, d, head + guards, installs);
    ExecConcat(w, d, head, guards);
    HeaderRun(w, d, opt, list[0]);
    var d1 := Exec(w, d, head);
    GuardsRun(w, d1, paths, |paths|);
    InstallsRun(w, d1, paths, bins, list, opt, |bins|);
    TailRun(w, Exec(w, d1, installs), opt);
  }

  lemma TailRun(w: World, d: Device, opt: Options)
    requires d.status.Running?
    ensures Exec(w, d, Tail(opt)) == if opt.endScript then d.(next := 100, current := 100) else d
  {
    if opt.endScript {
      var a, b, c := Plain(SetNext(100)), Plain(UserText), Plain(SetCurrent(100));
      assert [a, b, c] == [a, b] + [c];
      ExecConcat(w, d, [a, b], [c]);
      ExecTwo(w, d, a, b);
      ExecOne(w, d.(next := 100), c);
    }
  }

  /** Part i is the last of the first k for device p that was not skipped. */
  predicate LastFor(w: World, opt: Options, paths: seq<string>, bins: seq<string>, k: nat, i: nat, p: string)
    requires k <= |bins| == |paths|
  {
    && i < k && paths[i] == p && !(Stem(bins[i]) in opt.verify && !w.verifyOk(bins[i]))
    && forall j :: i < j < k && paths[j] == p ==> Stem(bins[j]) in opt.verify && !w.verifyOk(bins[j])
  }

  predicate NoneFor(w: World, opt: Options, paths: seq<string>, bins: seq<string>, k: nat, p: string)
    requires k <= |bins| == |paths|
  {
    forall i :: 0 <= i < k && paths[i] == p ==> Stem(bins[i]) in opt.verify && !w.verifyOk(bins[i])
  }

  /** Which image a device holds afterwards: that of the last part for it that was not
      skipped; a device for which there is none is unchanged. */
  lemma {:induction false} InstalledExactly(w: World, opt: Options, paths: seq<string>, bins: seq<string>,
                                            k: nat, parts: map<string, Image>, p: string)
    requires k <= |bins| == |paths|
    ensures var r := Installed(w, opt, paths, bins, k, parts);
            && (forall i: nat :: LastFor(w, opt, paths, bins, k, i, p) ==> p in r && r[p] == w.package(bins[i]))
            && (NoneFor(w, opt, paths, bins, k, p) ==> Unchanged(parts, r, p))
  {
    hide Stem;
    if k > 0 {
      InstalledExactly(w, opt, paths, bins, k - 1, parts, p);
      var r := Installed(w, opt, paths, bins, k, parts);
      forall i: nat | LastFor(w, opt, paths, bins, k, i, p)
        ensures p in r && r[p] == w.package(bins[i])
      {
        assert i < k - 1 ==> LastFor(w, opt, paths, bins, k - 1, i, p);
      }
    }
  }

  predicate Unchanged(parts: map<string, Image>, after: map<string, Image>, p: string) {
    (p in after <==> p in parts) && (p in parts ==> after[p] == parts[p])
  }

  /** So for a whole run in which all checks and copies succeed. */
  lemma DeviceAfterFullRun(w: World, d: Device, paths: seq<string>, bins: seq<string>, list: seq<int>,
                           opt: Options, p: string)
    requires 0 < |bins| == |paths| == |list| && d.status.Running?
    requires (opt.skipVersionCheck || w.version <= opt.version) && AllCopied(w, opt, bins, |bins|)
    requires forall i :: 0 <= i < |paths| ==> paths[i] in w.devices
    ensures var r := Exec(w, d, FullScript(paths, bins, list, opt)).parts;
            && (forall i: nat :: LastFor(w, opt, paths, bins, |bins|, i, p) ==> p in r && r[p] == w.package(bins[i]))
            && (NoneFor(w, opt, paths, bins, |bins|, p) ==> Unchanged(d.parts, r, p))
  {
    hide LastFor, NoneFor, FullScript;
    SuccessfulRun(w, d, paths, bins, list, opt);
    InstalledExactly(w, opt, paths, bins, |bins|, d.parts, p);
  }

  /** A failed copy of part k reboots the device at once: the parts before it are
      installed, its own target is damaged, and no later target was touched. */
  lemma FailedCopyRun(w: World, d: Device, paths: seq<string>, bins: seq<string>, list: seq<int>, opt: Options,
                      k: nat)
    requires k < |bins| == |paths| == |list| && d.status.Running?
    requires VersionOk(w, opt) && AllPresent(w, paths, |paths|) && AllCopied(w, opt, bins, k)
    requires !Skipped(w, opt, bins[k]) && !w.copyOk(bins[k])
    ensures var r := Exec(w, d, FullScript(paths, bins, list, opt));
            && r.parts == Installed(w, opt, paths, bins, k, d.parts)[paths[k] := w.torn(bins[k])]
            && r.status == Rebooted
            && r.current == if k == 0 then 30 else list[k - 1]
  {
    var head, guards := Header(opt, list[0]), Guards(paths, |paths|);
    var installs := Installs(paths, bins, list, opt, |bins|);
    ExecConcat(w, d, head + guards + installs, Tail(opt));
    ExecConcat(w, d, head + guards, installs);
    ExecConcat(w, d, head, guards);
    HeaderRun(w, d, opt, list[0]);
    var d1 := Exec(w, d, head);
    GuardsRun(w, d1, paths, |paths|);
    FailedInstalls(w, d1, paths, bins, list, opt, k, |bins|);
    ExecStopped(w, Exec(w, d1, installs), Tail(opt));
  }

  lemma {:induction false} FailedInstalls(w: World, d: Device, paths: seq<string>, bins: seq<string>,
                                          list: seq<int>, opt: Options, k: nat, n: nat)
    requires k < n <= |bins| == |paths| == |list| && d.status.Running? && AllCopied(w, opt, bins, k)
    requires !Skipped(w, opt, bins[k]) && !w.copyOk(bins[k])
    ensures var r := Exec(w, d, Installs(paths, bins, list, opt, n));
            && r.parts == Installed(w, opt, paths, bins, k, d.parts)[paths[k] := w.torn(bins[k])]
            && r.status == Rebooted
            && r.current == if k == 0 then d.current else list[k - 1]
    decreases n
  {
    var lines, report := InstallLines(paths, bins, opt, n - 1), ReportLines(list, n - 1);
    var before := Exec(w, d, Installs(paths, bins, list, opt, n - 1));
    ExecConcat(w, d, Installs(paths, bins, list, opt, n - 1), lines + report);
    ExecConcat(w, before, lines, report);
    if n - 1 > k {
      FailedInstalls(w, d, paths, bins, list, opt, k, n - 1);
      ExecStopped(w, before, lines);
      ExecStopped(w, before, report);
    } else {
      InstallsRun(w, d, paths, bins, list, opt, k);
      if k == 0 { assert before == d; }
      InstallRun(w, before, paths, bins, opt, k);
      ExecStopped(w, Exec(w, before, lines), report);
    }
  }

  // ----- differential package

  /** Partitions after the first k patches. */
  function Patched(w: World, paths: seq<string>, k: nat, parts: map<string, Image>): map<string, Image>
    requires k <= |paths|
  {
    if k == 0 then parts else Patched(w, paths, k - 1, parts)[paths[k - 1] := w.patched(paths[k - 1])]
  }

  /** Partitions after the first k new ones. */
  function Added(w: World, added: seq<string>, k: nat, parts: map<string, Image>): map<string, Image>
    requires k <= |added|
  {
    if k == 0 then parts else Added(w, added, k - 1, parts)[Target(added[k - 1]) := w.package(added[k - 1])]
  }

  predicate AllPatch(w: World, paths: seq<string>, k: nat)
    requires k <= |paths|
  {
    forall i :: 0 <= i < k ==> w.patchOk(paths[i])
  }

  predicate AllAdd(w: World, added: seq<string>, k: nat)
    requires k <= |added|
  {
    forall i :: 0 <= i < k ==> w.copyOk(added[i])
  }

  /** The block of patches is entered when the last file is not there yet. */
  predicate Entered(w: World, bins: seq<string>)
    requires bins != []
  {
    bins[|bins| - 1] !in w.files
  }

  lemma {:induction false} BlockSkipped(w: World, d: Device, paths: seq<string>, list: seq<int>, k: nat)
    requires k <= |paths| <= |list| && !d.block
    ensures Exec(w, d, Patches(paths, list, k)) == d
  {
    if k > 0 {
      BlockSkipped(w, d, paths, list, k - 1);
      ExecConcat(w, d, Patches(paths, list, k - 1), PatchLines(paths, list, k - 1));
      LinesSkipped(w, d, PatchLines(paths, list, k - 1));
    }
  }

  lemma {:induction false} LinesSkipped(w: World, d: Device, s: seq<Line>)
    requires !d.block && forall i :: 0 <= i < |s| ==> s[i].InBlock?
    ensures Exec(w, d, s) == d
    decreases |s|
  {
    if s != [] {
      LinesSkipped(w, d, s[1..]);
    }
  }

  lemma PatchRun(w: World, d: Device, paths: seq<string>, list: seq<int>, i: nat)
    requires i < |paths| <= |list| && d.status.Running? && d.block
    ensures var r := Exec(w, d, PatchLines(paths, list, i));
            if w.patchOk(paths[i]) then
              && r.parts == d.parts[paths[i] := w.patched(paths[i])] && r.current == list[i]
              && r.status == Running && r.block
            else
              r.parts == d.parts[paths[i] := w.halfPatched(paths[i])] && r.current == -1 && r.status == Exited
  {
    var more := if i + 1 < |paths| then [InBlock(SetNext(list[i + 1]))] else [];
    var a, b := InBlock(ApplyPatch(paths[i])), InBlock(SetCurrent(list[i]));
    ExecConcat(w, d, [a, b], more);
    ExecTwo(w, d, a, b);
    var e := Exec(w, d, [a, b]);
    if i + 1 < |paths| {
      ExecOne(w, e, more[0]);
    }
  }

  lemma {:induction false} PatchesRun(w: World, d: Device, paths: seq<string>, list: seq<int>, k: nat)
    requires k <= |paths| <= |list| && d.status.Running? && d.block && AllPatch(w, paths, k)
    ensures var r := Exec(w, d, Patches(paths, list, k));
            && r.parts == Patched(w, paths, k, d.parts) && r.status == Running && r.block
            && r.current == if k > 0 then list[k - 1] else d.current
  {
    if k > 0 {
      PatchesRun(w, d, paths, list, k - 1);
      ExecConcat(w, d, Patches(paths, list, k - 1), PatchLines(paths, list, k - 1));
      PatchRun(w, Exec(w, d, Patches(paths, list, k - 1)), paths, list, k - 1);
    }
  }

  lemma {:induction false} FailedPatches(w: World, d: Device, paths: seq<string>, list: seq<int>, k: nat, n: nat)
    requires k < n <= |paths| <= |list| && d.status.Running? && d.block
    requires AllPatch(w, paths, k) && !w.patchOk(paths[k])
    ensures var r := Exec(w, d, Patches(paths, list, n));
            && r.parts == Patched(w, paths, k, d.parts)[paths[k] := w.halfPatched(paths[k])]
            && r.current == -1 && r.status == Exited
    decreases n
  {
    var before := Exec(w, d, Patches(paths, list, n - 1));
    ExecConcat(w, d, Patches(paths, list, n - 1), PatchLines(paths, list, n - 1));
    if n - 1 > k {
      FailedPatches(w, d, paths, list, k, n - 1);
      ExecStopped(w, before, PatchLines(paths, list, n - 1));
    } else {
      PatchesRun(w, d, paths, list, k);
      PatchRun(w, before, paths, list, k);
    }
  }

  lemma AdditionRun(w: World, d: Device, added: seq<string>, list: seq<int>, n: nat, i: nat)
    requires i < |added| && n + |added| == |list| && d.status.Running?
    ensures var r := Exec(w, d, AdditionLines(added, list, n, i));
            if w.copyOk(added[i]) then
              && r.parts == d.parts[Target(added[i]) := w.package(added[i])] && r.current == list[n + i]
              && r.status == Running
            else
              && r.parts == d.parts[Target(added[i]) := w.torn(added[i])] && r.current == d.current
              && r.status == Rebooted
  {
    var install := Plain(Install(added[i], Target(added[i])));
    ExecConcat(w, d, [install], ReportLines(list, n + i));
    ExecOne(w, d, install);
    var e := Exec(w, d, [install]);
    if w.copyOk(added[i]) {
      ReportRun(w, e, list, n + i);
    } else {
      ExecStopped(w, e, ReportLines(list, n + i));
    }
  }

  lemma {:induction false} AdditionsRun(w: World, d: Device, added: seq<string>, list: seq<int>, n: nat, k: nat)
    requires k <= |added| && n + |added| == |list| && d.status.Running? && AllAdd(w, added, k)
    ensures var r := Exec(w, d, Additions(added, list, n, k));
            && r.parts == Added(w, added, k, d.parts) && r.status == Running
            && r.current == if k > 0 then list[n + k - 1] else d.current
  {
    hide AdditionLines, Target;
    if k > 0 {
      AdditionsRun(w, d, added, list, n, k - 1);
      ExecConcat(w, d, Additions(added, list, n, k - 1), AdditionLines(added, list, n, k - 1));
      AdditionRun(w, Exec(w, d, Additions(added, list, n, k - 1)), added, list, n, k - 1);
    }
  }

  lemma {:induction false} FailedAdditions(w: World, d: Device, added: seq<string>, list: seq<int>, n: nat,
                                           k: nat, m: nat)
    requires k < m <= |added| && n + |added| == |list| && d.status.Running?
    requires AllAdd(w, added, k) && !w.copyOk(added[k])
    ensures var r := Exec(w, d, Additions(added, list, n, m));
            && r.parts == Added(w, added, k, d.parts)[Target(added[k]) := w.torn(added[k])]
            && r.status == Rebooted
            && r.current == if k > 0 then list[n + k - 1] else d.current
    decreases m
  {
    hide AdditionLines, Target;
    var lines := AdditionLines(added, list, n, m - 1);
    var before := Exec(w, d, Additions(added, list, n, m - 1));
    ExecConcat(w, d, Additions(added, list, n, m - 1), lines);
    if m - 1 > k {
      FailedAdditions(w, d, added, list, n, k, m - 1);
      ExecStopped(w, before, lines);
    } else {
      AdditionsRun(w, d, added, list, n, k);
      AdditionRun(w, before, added, list, n, k);
    }
  }

  /** The run up to the patches. */
  lemma DiffHead(w: World, d: Device, paths: seq<string>, bins: seq<string>, added: seq<string>, list: seq<int>,
                 opt: Options)
    requires 0 < |bins| == |paths| && |list| == |bins| + |added| && d.status.Running?
    ensures var patches, adds := Patches(paths, list, |paths|), Additions(added, list, |bins|, |added|);
            var r := Exec(w, d, DiffScript(paths, bins, added, list, opt));
            if VersionOk(w, opt) then
              r == Exec(w, Exec(w, Exec(w, d.(current := 30, next := list[0], block := Entered(w, bins)), patches),
                                adds), Tail(opt))
            else r.parts == d.parts && r.current == -1 && r.status == Exited
  {
    hide Exec, Header, Tail, Patches, Additions;
    var head, test := Header(opt, list[0]), Plain(TestMissing(bins[|bins| - 1]));
    var patches, adds := Patches(paths, list, |paths|), Additions(added, list, |bins|, |added|);
    var rest := patches + adds + Tail(opt);
    ExecConcat(w, d, head, [test] + rest);
    HeaderRun(w, d, opt, list[0]);
    var e := Exec(w, d, head);
    if VersionOk(w, opt) {
      ExecConcat(w, e, [test], rest);
      ExecOne(w, e, test);
      var f := Exec(w, e, [test]);
      ExecConcat(w, f, patches + adds, Tail(opt));
      ExecConcat(w, f, patches, adds);
    } else {
      ExecStopped(w, e, [test] + rest);
    }
  }

  /** Partitions after a differential update in which everything succeeds. */
  function Updated(w: World, paths: seq<string>, bins: seq<string>, added: seq<string>,
                   parts: map<string, Image>): map<string, Image>
    requires 0 < |bins| == |paths|
  {
    Added(w, added, |added|, if Entered(w, bins) then Patched(w, paths, |paths|, parts) else parts)
  }

  /** If everything succeeds, all patches are applied when the last file was missing, none
      otherwise, and all new partitions installed. The last milestone is reported, or 100
      after an end script; but nothing beyond 30 when there was nothing to do. */
  lemma SuccessfulDiffRun(w: World, d: Device, paths: seq<string>, bins: seq<string>, added: seq<string>,
                          list: seq<int>, opt: Options)
    requires 0 < |bins| == |paths| && |list| == |bins| + |added| && d.status.Running? && VersionOk(w, opt)
    requires (Entered(w, bins) ==> AllPatch(w, paths, |paths|)) && AllAdd(w, added, |added|)
    ensures var r := Exec(w, d, DiffScript(paths, bins, added, list, opt));
            && r.parts == Updated(w, paths, bins, added, d.parts)
            && r.status == Running
            && r.current == (if opt.endScript then 100
                             else if added != [] || Entered(w, bins) then list[|list| - 1] else 30)
  {
    hide DiffScript, Patches, Additions, Patched, Added, Tail;
    DiffHead(w, d, paths, bins, added, list, opt);
    var d1 := d.(current := 30, next := list[0], block := Entered(w, bins));
    if Entered(w, bins) {
      PatchesRun(w, d1, paths, list, |paths|);
    } else {
      BlockSkipped(w, d1, paths, list, |paths|);
    }
    var d2 := Exec(w, d1, Patches(paths, list, |paths|));
    assert d2.parts == if Entered(w, bins) then Patched(w, paths, |paths|, d.parts) else d.parts;
    AdditionsRun(w, d2, added, list, |bins|, |added|);
    TailRun(w, Exec(w, d2, Additions(added, list, |bins|, |added|)), opt);
  }

  /** New partition i is the last of the first k for device p. */
  predicate LastAdded(added: seq<string>, k: nat, i: nat, p: string)
    requires k <= |added|
  {
    i < k && Target(added[i]) == p && forall j :: i < j < k ==> Target(added[j]) != p
  }

  predicate NoneAdded(added: seq<string>, k: nat, p: string)
    requires k <= |added|
  {
    forall i :: 0 <= i < k ==> Target(added[i]) != p
  }

  /** Which image a device holds afterwards: that of the last new partition for it, else
      the patched one if it was patched, else what it held before. */
  lemma DeviceAfterDiffRun(w: World, d: Device, paths: seq<string>, bins: seq<string>, added: seq<string>,
                           list: seq<int>, opt: Options, p: string)
    requires 0 < |bins| == |paths| && |list| == |bins| + |added| && d.status.Running?
    requires opt.skipVersionCheck || w.version <= opt.version
    requires (Entered(w, bins) ==> AllPatch(w, paths, |paths|)) && AllAdd(w, added, |added|)
    ensures var r := Exec(w, d, DiffScript(paths, bins, added, list, opt)).parts;
            && (forall i: nat :: LastAdded(added, |added|, i, p) ==> p in r && r[p] == w.package(added[i]))
            && (NoneAdded(added, |added|, p) ==>
                  if bins[|bins| - 1] !in w.files && p in paths then p in r && r[p] == w.patched(p)
                  else Unchanged(d.parts, r, p))
  {
    hide DiffScript, LastAdded, NoneAdded, Added, Patched;
    SuccessfulDiffRun(w, d, paths, bins, added, list, opt);
    PatchedExactly(w, paths, |paths|, d.parts, p);
    AddedExactly(w, added, |added|, if Entered(w, bins) then Patched(w, paths, |paths|, d.parts) else d.parts, p);
    assert paths[..|paths|] == paths;
  }

  lemma {:induction false} PatchedExactly(w: World, paths: seq<string>, k: nat, parts: map<string, Image>, p: string)
    requires k <= |paths|
    ensures var r := Patched(w, paths, k, parts);
            if p in paths[..k] then p in r && r[p] == w.patched(p) else Unchanged(parts, r, p)
  {
    if k > 0 {
      PatchedExactly(w, paths, k - 1, parts, p);
      assert paths[..k] == paths[..k - 1] + [paths[k - 1]];
    }
  }

  lemma {:induction false} AddedExactly(w: World, added: seq<string>, k: nat, parts: map<string, Image>, p: string)
    requires k <= |added|
    ensures var r := Added(w, added, k, parts);
            && (forall i: nat :: LastAdded(added, k, i, p) ==> p in r && r[p] == w.package(added[i]))
            && (NoneAdded(added, k, p) ==> Unchanged(parts, r, p))
  {
    hide Target;
    if k > 0 {
      AddedExactly(w, added, k - 1, parts, p);
      var r := Added(w, added, k, parts);
      forall i: nat | LastAdded(added, k, i, p)
        ensures p in r && r[p] == w.package(added[i])
      {
        assert i < k - 1 ==> LastAdded(added, k - 1, i, p);
      }
    }
  }

  /** A failed version check, or a failed patch, ends the run with -1 reported. Before the
      patches nothing is written; a failed patch k leaves the patches before it and its own
      damaged target, and no new partition is touched. */
  lemma FailedPatchRun(w: World, d: Device, paths: seq<string>, bins: seq<string>, added: seq<string>,
                       list: seq<int>, opt: Options, k: nat)
    requires k < |bins| == |paths| && |list| == |bins| + |added| && d.status.Running?
    requires VersionOk(w, opt) ==> Entered(w, bins) && AllPatch(w, paths, k) && !w.patchOk(paths[k])
    ensures var r := Exec(w, d, DiffScript(paths, bins, added, list, opt));
            && r.status == Exited && r.current == -1
            && r.parts == (if VersionOk(w, opt) then Patched(w, paths, k, d.parts)[paths[k] := w.halfPatched(paths[k])]
                           else d.parts)
  {
    hide DiffScript, Patches, Additions, Patched, Tail;
    DiffHead(w, d, paths, bins, added, list, opt);
    if VersionOk(w, opt) {
      var d1 := d.(current := 30, next := list[0], block := Entered(w, bins));
      FailedPatches(w, d1, paths, list, k, |paths|);
      var d2 := Exec(w, d1, Patches(paths, list, |paths|));
      ExecStopped(w, d2, Additions(added, list, |bins|, |added|));
      ExecStopped(w, d2, Tail(opt));
    }
  }

  /** A failed installation of new partition k reboots at once, with the patches and the new
      partitions before it in place. */
  lemma FailedAdditionRun(w: World, d: Device, paths: seq<string>, bins: seq<string>, added: seq<string>,
                          list: seq<int>, opt: Options, k: nat)
    requires 0 < |bins| == |paths| && |list| == |bins| + |added| && k < |added| && d.status.Running?
    requires VersionOk(w, opt) && (Entered(w, bins) ==> AllPatch(w, paths, |paths|))
    requires AllAdd(w, added, k) && !w.copyOk(added[k])
    ensures var r := Exec(w, d, DiffScript(paths, bins, added, list, opt));
            var base := if Entered(w, bins) then Patched(w, paths, |paths|, d.parts) else d.parts;
            && r.parts == Added(w, added, k, base)[Target(added[k]) := w.torn(added[k])]
            && r.status == Rebooted
            && r.current == (if k > 0 || Entered(w, bins) then list[|bins| + k - 1] else 30)
  {
    hide DiffScript, Patches, Additions, Patched, Added, Tail, Target;
    DiffHead(w, d, paths, bins, added, list, opt);
    var d1 := d.(current := 30, next := list[0], block := Entered(w, bins));
    if Entered(w, bins) {
      PatchesRun(w, d1, paths, list, |paths|);
    } else {
      BlockSkipped(w, d1, paths, list, |paths|);
    }
    var d2 := Exec(w, d1, Patches(paths, list, |paths|));
    FailedAdditions(w, d2, added, list, |bins|, k, |added|);
    ExecStopped(w, Exec(w, d2, Additions(added, list, |bins|, |added|)), Tail(opt));
  }
}
