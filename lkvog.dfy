/** Generation of Linux kernel verification objects from build command descriptions
    (Psi/psi/lkvog/__init__.py).

    The build command descriptions arrive on one queue and the names of the selected
    kernel modules leave on another; both queues are modelled as sequences ending in the
    `None` sentinel. The shared dictionary of descriptions indexed by output file is a map.
    The partitioning strategies `closure` and `scotch` are given by their `divide`
    functions, whose bodies are not part of this model. */
module Lkvog {
  import opened Wrappers
  import opened Text

  /** The `type` of a build command. `OtherCmd` stands for every type other than "CC" and
      "LD", so its name is never one of those two. */
  datatype CmdType = CC | LD | OtherCmd(name: string)

  /** A build command as the build command extractor describes it; an absent output file is "". */
  datatype RawBuildCmd = RawBuildCmd(cmdType: CmdType, inFiles: seq<string>, outFile: string, opts: seq<string>)

  /** The copy of a build command that is put on the descriptions queue. */
  datatype BuildCmdDesc = BuildCmdDesc(cmdType: CmdType, inFiles: seq<string>, outFile: string,
                                       fullDescFile: Option<string>)

  /** A member of a cluster with the ids of its predecessors inside the cluster. */
  datatype ClusterModule = ClusterModule(id: string, predecessors: seq<string>)

  /** A cluster returned by a strategy's `divide`; `hash` is the text of Python's `hash(cluster)`. */
  datatype Cluster = Cluster(root: string, modules: seq<ClusterModule>, hash: string)

  /** The configured strategy; `Unsupported` is any name that is none of the three. */
  datatype Strategy =
    | SeparateModules
    | Closure(divide: string -> seq<Cluster>)
    | Scotch(divide: string -> seq<Cluster>)
    | Unsupported(name: string)
  {
    /** Membership in `strategies_list`: the graph-partitioning strategies. */
    predicate Partitions() {
      Closure? || Scotch?
    }
  }

  datatype Group = Group(id: string, ccFullDescFiles: seq<string>)

  datatype VerificationObjDesc = VerificationObjDesc(id: string, grps: seq<Group>, deps: map<string, seq<string>>)

  /** The exceptions the generator can raise. */
  datatype Failure =
    | MissingDescriptor(outFile: string)       // KeyError on the index
    | MissingFullDescFile(outFile: string)     // KeyError on a CC description without 'full desc file'
    | RecursionLimitExceeded(outFile: string)  // RecursionError on a cyclic or too deep build graph
    | UnsupportedStrategy(name: string)        // NotImplementedError

  /** Python's default recursion limit, which bounds the backward resolution. */
  const RecursionLimit: nat := 1000

  type Index = map<string, BuildCmdDesc>

  // ---------------------------------------------------------------------------
  // Normalising a raw build command
  // ---------------------------------------------------------------------------

  /** A CC command gets a full description file when it compiles a concrete on-disk input
      (not STDIN, not an absolute path such as /dev/null) into a concrete output. */
  predicate GetsFullDescFile(c: RawBuildCmd) {
    && c.cmdType == CC
    && c.inFiles != []
    && c.inFiles[0] != "-"
    && !StartsWith(c.inFiles[0], "/")
    && c.outFile != ""
  }

  /** The description forwarded for a raw build command: type, input and output files, and the
      full description file named after the output file when the command gets one. */
  function NormaliseRawBuildCmd(c: RawBuildCmd): (d: BuildCmdDesc)
    ensures d.cmdType == c.cmdType && d.inFiles == c.inFiles && d.outFile == c.outFile
    ensures d.fullDescFile.Some? <==>
              c.cmdType == CC && |c.inFiles| > 0 && c.inFiles[0] != "-"
              && !StartsWith(c.inFiles[0], "/") && |c.outFile| > 0
    ensures d.fullDescFile.Some? ==> d.fullDescFile.value == c.outFile + ".json"
  {
    BuildCmdDesc(c.cmdType, c.inFiles, c.outFile,
                 if GetsFullDescFile(c) then Some(c.outFile + ".json") else None)
  }

  /** What the build command extractor puts on the descriptions queue: one description per raw
      command, then the sentinel. A consumer that reads up to the sentinel gets back exactly
      the normalised descriptions, in order, and stops at the last entry. */
  function BuildCmdDescsQueue(raws: seq<RawBuildCmd>): (q: seq<Option<BuildCmdDesc>>)
    ensures var descs := UpToSentinel(q);
            && |descs| == |raws| && |q| == |raws| + 1
            && forall i :: 0 <= i < |raws| ==> descs[i] == NormaliseRawBuildCmd(raws[i])
    ensures q[|raws|] == None
  {
    var descs := seq(|raws|, i requires 0 <= i < |raws| => NormaliseRawBuildCmd(raws[i]));
    UpToSentinelOfQueue(descs);
    ToQueue(descs) + [None]
  }

  /** Full description files of distinct outputs are distinct, so no two CC commands with
      different outputs share one. */
  lemma FullDescFilesDistinct(c1: RawBuildCmd, c2: RawBuildCmd)
    requires GetsFullDescFile(c1) && GetsFullDescFile(c2) && c1.outFile != c2.outFile
    ensures NormaliseRawBuildCmd(c1).fullDescFile != NormaliseRawBuildCmd(c2).fullDescFile
  {
    assert (c1.outFile + ".json")[..|c1.outFile|] == c1.outFile;
    assert (c2.outFile + ".json")[..|c2.outFile|] == c2.outFile;
  }

  // ---------------------------------------------------------------------------
  // Queues
  // ---------------------------------------------------------------------------

  /** The items a consumer takes from a queue before it reads the first `None`. */
  function UpToSentinel<T>(q: seq<Option<T>>): (r: seq<T>)
    ensures |r| <= |q|
    ensures forall i :: 0 <= i < |r| ==> q[i] == Some(r[i])
    ensures |r| < |q| ==> q[|r|] == None
  {
    if q == [] || q[0].None? then [] else [q[0].value] + UpToSentinel(q[1..])
  }

  /** A queue that carries a sentinel yields the items strictly before it. */
  lemma {:induction false} UpToSentinelStops<T>(q: seq<Option<T>>)
    requires None in q
    ensures |UpToSentinel(q)| < |q|
  {
    if q[0].Some? {
      assert None in q[1..];
      UpToSentinelStops(q[1..]);
    }
  }

  // ---------------------------------------------------------------------------
  // Selecting modules
  // ---------------------------------------------------------------------------

  /** The search over the configured module filters, stopping at the first one that is a
      prefix of the output file. */
  function MatchesAnyFilter(filters: seq<string>, outFile: string): (r: bool)
    ensures r <==> exists i :: 0 <= i < |filters| && StartsWith(outFile, filters[i])
  {
    if filters == [] then false
    else if StartsWith(outFile, filters[0]) then true
    else
      var r := MatchesAnyFilter(filters[1..], outFile);
      assert forall i :: 1 <= i < |filters| ==> filters[i] == filters[1..][i - 1];
      r
  }

  /** A description names a selected module when it links a `.ko` file that the `modules`
      configuration selects; without a `modules` configuration nothing is selected. */
  predicate IsSelectedModule(d: BuildCmdDesc, modules: Option<seq<string>>) {
    && d.cmdType == LD
    && EndsWith(d.outFile, ".ko")
    && modules.Some?
    && ("all" in modules.value || MatchesAnyFilter(modules.value, d.outFile))
  }

  /** The module names forwarded while ingesting `descs`, in arrival order. */
  function SelectedNames(descs: seq<BuildCmdDesc>, modules: Option<seq<string>>): seq<string>
    decreases |descs|
  {
    if descs == [] then []
    else
      var last := descs[|descs| - 1];
      SelectedNames(descs[..|descs| - 1], modules)
      + (if IsSelectedModule(last, modules) then [last.outFile] else [])
  }

  /** The index after ingesting `descs`: each description is stored under its output file. */
  function Ingest(index: Index, descs: seq<BuildCmdDesc>): Index
    decreases |descs|
  {
    if descs == [] then index
    else
      var last := descs[|descs| - 1];
      Ingest(index, descs[..|descs| - 1])[last.outFile := last]
  }

  /** A name is forwarded exactly when some ingested description selects it. */
  lemma {:induction false} SelectedNamesMembers(descs: seq<BuildCmdDesc>, modules: Option<seq<string>>, x: string)
    ensures x in SelectedNames(descs, modules) <==>
              exists i :: 0 <= i < |descs| && descs[i].outFile == x && IsSelectedModule(descs[i], modules)
    decreases |descs|
  {
    if descs != [] {
      var n := |descs| - 1;
      SelectedNamesMembers(descs[..n], modules, x);
      assert forall i :: 0 <= i < n ==> descs[..n][i] == descs[i];
    }
  }

  /** Names leave in arrival order: ingesting `a` then `b` forwards `a`'s names, then `b`'s. */
  lemma {:induction false} SelectedNamesAppend(a: seq<BuildCmdDesc>, b: seq<BuildCmdDesc>, modules: Option<seq<string>>)
    ensures SelectedNames(a + b, modules) == SelectedNames(a, modules) + SelectedNames(b, modules)
    decreases |b|
  {
    if b == [] {
      assert a + b == a;
    } else {
      var n := |b| - 1;
      assert (a + b)[..|a + b| - 1] == a + b[..n];
      SelectedNamesAppend(a, b[..n], modules);
    }
  }

  /** Every forwarded name is the `.ko` output of an LD command. */
  lemma {:induction false} SelectedNamesAreModules(descs: seq<BuildCmdDesc>, modules: Option<seq<string>>)
    ensures forall x :: x in SelectedNames(descs, modules) ==> EndsWith(x, ".ko")
    ensures modules.None? ==> SelectedNames(descs, modules) == []
    decreases |descs|
  {
    if descs != [] {
      SelectedNamesAreModules(descs[..|descs| - 1], modules);
    }
  }

  /** After ingesting, an output file maps to the last description that produced it. */
  lemma {:induction false} IngestKeepsLast(index: Index, descs: seq<BuildCmdDesc>, i: nat)
    requires i < |descs|
    requires forall j :: i < j < |descs| ==> descs[j].outFile != descs[i].outFile
    ensures descs[i].outFile in Ingest(index, descs) && Ingest(index, descs)[descs[i].outFile] == descs[i]
    decreases |descs|
  {
    var n := |descs| - 1;
    if i < n {
      assert descs[..n][i] == descs[i];
      IngestKeepsLast(index, descs[..n], i);
    }
  }

  /** An output file that no ingested description produced keeps its earlier entry, or stays
      absent. */
  lemma {:induction false} IngestLeavesOthers(index: Index, descs: seq<BuildCmdDesc>, k: string)
    requires forall i :: 0 <= i < |descs| ==> descs[i].outFile != k
    ensures k in Ingest(index, descs) <==> k in index
    ensures k in index ==> Ingest(index, descs)[k] == index[k]
    decreases |descs|
  {
    if descs != [] {
      var n := |descs| - 1;
      assert forall i :: 0 <= i < n ==> descs[..n][i] == descs[i];
      IngestLeavesOthers(index, descs[..n], k);
    }
  }

  lemma IngestSnoc(index: Index, descs: seq<BuildCmdDesc>, d: BuildCmdDesc)
    ensures Ingest(index, descs + [d]) == Ingest(index, descs)[d.outFile := d]
  {
    assert (descs + [d])[..|descs|] == descs;
  }

  lemma SelectedNamesSnoc(descs: seq<BuildCmdDesc>, d: BuildCmdDesc, modules: Option<seq<string>>)
    ensures SelectedNames(descs + [d], modules)
            == SelectedNames(descs, modules) + (if IsSelectedModule(d, modules) then [d.outFile] else [])
  {
    assert (descs + [d])[..|descs|] == descs;
  }

  // ---------------------------------------------------------------------------
  // Backward resolution from a link output to CC full description files
  // ---------------------------------------------------------------------------

  /** `f` is the full description file of some CC command in the index. */
  ghost predicate IsCcFullDescFile(index: Index, f: string) {
    exists k :: k in index && index[k].cmdType == CC && index[k].fullDescFile == Some(f)
  }

  /** The CC full description files that `outFile` is built from. `depth` is the number of
      nested calls still allowed before Python's recursion limit is hit. */
  function FindCcFullDescFiles(index: Index, outFile: string, depth: nat): (r: Result<seq<string>, Failure>)
    ensures r.Ok? ==> outFile in index && forall f :: f in r.value ==> IsCcFullDescFile(index, f)
    ensures outFile !in index && depth > 0 ==> r == Err(MissingDescriptor(outFile))
    ensures depth > 0 && outFile in index && index[outFile].cmdType == CC ==>
              r == match index[outFile].fullDescFile
                   case Some(f) => Ok([f])
                   case None => Err(MissingFullDescFile(outFile))
    ensures depth > 0 && outFile in index && index[outFile].cmdType != CC ==>
              r == FindInFiles(index, index[outFile].inFiles, depth - 1)
    decreases depth, 0
  {
    if depth == 0 then Err(RecursionLimitExceeded(outFile))
    else if outFile !in index then Err(MissingDescriptor(outFile))
    else
      var d := index[outFile];
      if d.cmdType == CC then
        match d.fullDescFile
        case Some(f) => Ok([f])
        case None => Err(MissingFullDescFile(outFile))
      else FindInFiles(index, d.inFiles, depth - 1)
  }

  /** The resolutions of the input files that are not `.mod.o` glue objects, concatenated in
      input order; the first failing input fails the whole list. */
  function FindInFiles(index: Index, inFiles: seq<string>, depth: nat): (r: Result<seq<string>, Failure>)
    ensures r.Ok? ==> forall f :: f in r.value ==> IsCcFullDescFile(index, f)
    decreases depth, |inFiles| + 1
  {
    if inFiles == [] then Ok([])
    else if EndsWith(inFiles[0], ".mod.o") then FindInFiles(index, inFiles[1..], depth)
    else
      var first :- FindCcFullDescFiles(index, inFiles[0], depth);
      var rest :- FindInFiles(index, inFiles[1..], depth);
      Ok(first + rest)
  }

  /** Resolving a list of inputs is resolving its two halves and concatenating the results;
      the first half's failure wins. */
  lemma {:induction false} FindInFilesAppend(index: Index, a: seq<string>, b: seq<string>, depth: nat)
    ensures FindInFiles(index, a + b, depth)
            == match FindInFiles(index, a, depth)
               case Err(e) => Err(e)
               case Ok(fa) =>
                 match FindInFiles(index, b, depth)
                 case Err(e) => Err(e)
                 case Ok(fb) => Ok(fa + fb)
    decreases |a|
  {
    if a == [] {
      assert a + b == b;
      var rb := FindInFiles(index, b, depth);
      if rb.Ok? {
        assert [] + rb.value == rb.value;
      }
    } else {
      assert (a + b)[0] == a[0];
      assert (a + b)[1..] == a[1..] + b;
      FindInFilesAppend(index, a[1..], b, depth);
      var first := FindCcFullDescFiles(index, a[0], depth);
      var ra := FindInFiles(index, a[1..], depth);
      var rb := FindInFiles(index, b, depth);
      if !EndsWith(a[0], ".mod.o") && first.Ok? && ra.Ok? && rb.Ok? {
        assert first.value + (ra.value + rb.value) == (first.value + ra.value) + rb.value;
      }
    }
  }

  /** A `.mod.o` glue input contributes nothing; any other input contributes its own
      resolution. */
  lemma FindInFilesOne(index: Index, f: string, depth: nat)
    ensures EndsWith(f, ".mod.o") ==> FindInFiles(index, [f], depth) == Ok([])
    ensures !EndsWith(f, ".mod.o") ==> FindInFiles(index, [f], depth) == FindCcFullDescFiles(index, f, depth)
  {
    assert [f][0] == f && [f][1..] == [];
    var first := FindCcFullDescFiles(index, f, depth);
    if first.Ok? {
      assert first.value + [] == first.value;
    }
  }

  /** A resolution that succeeds within some depth gives the same files with any larger depth:
      the limit only ever turns a result into a RecursionError. */
  lemma {:induction false} FindMonotone(index: Index, outFile: string, depth: nat, depth': nat)
    requires depth <= depth' && FindCcFullDescFiles(index, outFile, depth).Ok?
    ensures FindCcFullDescFiles(index, outFile, depth') == FindCcFullDescFiles(index, outFile, depth)
    decreases depth, 0
  {
    var d := index[outFile];
    if d.cmdType != CC {
      FindInFilesMonotone(index, d.inFiles, depth - 1, depth' - 1);
    }
  }

  lemma {:induction false} FindInFilesMonotone(index: Index, inFiles: seq<string>, depth: nat, depth': nat)
    requires depth <= depth' && FindInFiles(index, inFiles, depth).Ok?
    ensures FindInFiles(index, inFiles, depth') == FindInFiles(index, inFiles, depth)
    decreases depth, |inFiles| + 1
  {
    if inFiles != [] {
      if EndsWith(inFiles[0], ".mod.o") {
        FindInFilesMonotone(index, inFiles[1..], depth, depth');
      } else {
        FindMonotone(index, inFiles[0], depth, depth');
        FindInFilesMonotone(index, inFiles[1..], depth, depth');
      }
    }
  }

  /** Every input a resolution may follow is indexed and every CC command has a full
      description file. */
  ghost predicate Complete(index: Index) {
    forall k :: k in index ==>
      if index[k].cmdType == CC then index[k].fullDescFile.Some?
      else forall f :: f in index[k].inFiles && !EndsWith(f, ".mod.o") ==> f in index
  }

  /** `rank` strictly decreases along every followed input: the build graph has no cycle. */
  ghost predicate Ranked(index: Index, rank: map<string, nat>) {
    && index.Keys <= rank.Keys
    && forall k, f ::
         (k in index && index[k].cmdType != CC && f in index[k].inFiles && !EndsWith(f, ".mod.o") && f in index)
         ==> rank[f] < rank[k]
  }

  /** On a complete acyclic index, resolution succeeds once the depth exceeds the rank. */
  lemma {:induction false} FindSucceedsWhenAcyclic(index: Index, rank: map<string, nat>, outFile: string, depth: nat)
    requires Complete(index) && Ranked(index, rank)
    requires outFile in index && rank[outFile] < depth
    ensures FindCcFullDescFiles(index, outFile, depth).Ok?
    decreases depth, 0
  {
    var d := index[outFile];
    if d.cmdType != CC {
      FindInFilesSucceeds(index, rank, outFile, d.inFiles, depth - 1);
    }
  }

  lemma {:induction false} FindInFilesSucceeds(index: Index, rank: map<string, nat>, parent: string,
                                                inFiles: seq<string>, depth: nat)
    requires Complete(index) && Ranked(index, rank)
    requires parent in index && index[parent].cmdType != CC && rank[parent] <= depth
    requires forall f :: f in inFiles ==> f in index[parent].inFiles
    ensures FindInFiles(index, inFiles, depth).Ok?
    decreases depth, |inFiles| + 1
  {
    if inFiles != [] {
      if !EndsWith(inFiles[0], ".mod.o") {
        FindSucceedsWhenAcyclic(index, rank, inFiles[0], depth);
      }
      FindInFilesSucceeds(index, rank, parent, inFiles[1..], depth);
    }
  }

  /** Without a cycle guard, an output that lists itself as an input is never resolved. */
  lemma {:induction false} FindFailsOnSelfLoop(index: Index, outFile: string, depth: nat)
    requires outFile in index && index[outFile].cmdType != CC
    requires index[outFile].inFiles == [outFile] && !EndsWith(outFile, ".mod.o")
    ensures FindCcFullDescFiles(index, outFile, depth).Err?
    decreases depth
  {
    if depth > 0 {
      FindFailsOnSelfLoop(index, outFile, depth - 1);
      assert index[outFile].inFiles[1..] == [];
    }
  }

  /** A module linked from a linked object and a `.mod.o` glue object resolves to the CC
      description of the object's source only. */
  lemma ResolutionSkipsGlue()
    ensures var index := map[
              "a.o" := BuildCmdDesc(CC, ["a.c"], "a.o", Some("a.o.json")),
              "b.o" := BuildCmdDesc(LD, ["a.o"], "b.o", None),
              "c.ko" := BuildCmdDesc(LD, ["b.o", "c.mod.o"], "c.ko", None)];
            FindCcFullDescFiles(index, "c.ko", RecursionLimit) == Ok(["a.o.json"])
  {
    var index := map[
      "a.o" := BuildCmdDesc(CC, ["a.c"], "a.o", Some("a.o.json")),
      "b.o" := BuildCmdDesc(LD, ["a.o"], "b.o", None),
      "c.ko" := BuildCmdDesc(LD, ["b.o", "c.mod.o"], "c.ko", None)];
    assert EndsWith("c.mod.o", ".mod.o");
    assert !EndsWith("b.o", ".mod.o");
    assert !EndsWith("a.o", ".mod.o");
    assert FindCcFullDescFiles(index, "a.o", 998) == Ok(["a.o.json"]);
    assert FindInFiles(index, [], 998) == Ok([]);
    assert ["a.o"][1..] == [];
    assert ["a.o"][0] == "a.o";
    assert ["a.o.json"] + [] == ["a.o.json"];
    assert FindInFiles(index, ["a.o"], 998) == Ok(["a.o.json"]);
    assert FindCcFullDescFiles(index, "b.o", 999) == Ok(["a.o.json"]);
    assert ["c.mod.o"][1..] == [];
    assert FindInFiles(index, ["c.mod.o"], 999) == Ok([]);
    assert ["b.o", "c.mod.o"][0] == "b.o";
    assert ["b.o", "c.mod.o"][1..] == ["c.mod.o"];
    assert FindInFiles(index, ["b.o", "c.mod.o"], 999) == Ok(["a.o.json"]);
  }

  // ---------------------------------------------------------------------------
  // Verification object descriptions
  // ---------------------------------------------------------------------------

  /** `deps` has a key exactly for each group id. */
  ghost predicate DepsMatchGroups(v: VerificationObjDesc) {
    forall k :: k in v.deps <==> exists i :: 0 <= i < |v.grps| && v.grps[i].id == k
  }

  /** The groups are the cluster's modules in order, each holding its own resolution. */
  ghost predicate GroupsResolve(index: Index, mods: seq<ClusterModule>, grps: seq<Group>) {
    && |grps| == |mods|
    && forall i :: 0 <= i < |mods| ==>
         grps[i].id == mods[i].id && FindCcFullDescFiles(index, mods[i].id, RecursionLimit) == Ok(grps[i].ccFullDescFiles)
  }

  /** `deps` has a key for each module id, holding the predecessors of the last module with
      that id. */
  ghost predicate DepsOfLast(mods: seq<ClusterModule>, deps: map<string, seq<string>>) {
    && (forall k :: k in deps <==> exists i :: 0 <= i < |mods| && mods[i].id == k)
    && forall i :: 0 <= i < |mods| && (forall j :: i < j < |mods| ==> mods[j].id != mods[i].id) ==>
         mods[i].id in deps && deps[mods[i].id] == mods[i].predecessors
  }

  /** The description of one module under the separate-modules strategy. */
  function SeparateModuleDesc(index: Index, name: string): (r: Result<VerificationObjDesc, Failure>)
    ensures r.Ok? ==> && r.value.id == "linux/" + name
                      && |r.value.grps| == 1 && r.value.grps[0].id == name
                      && r.value.deps == map[name := []]
                      && DepsMatchGroups(r.value)
    ensures r.Err? <==> FindCcFullDescFiles(index, name, RecursionLimit).Err?
    ensures r.Ok? ==> r.value.grps[0].ccFullDescFiles == FindCcFullDescFiles(index, name, RecursionLimit).value
    ensures r.Err? ==> r.error == FindCcFullDescFiles(index, name, RecursionLimit).error
  {
    var files :- FindCcFullDescFiles(index, name, RecursionLimit);
    Ok(VerificationObjDesc("linux/" + name, [Group(name, files)], map[name := []]))
  }

  /** Groups and dependencies of the first `|mods|` cluster members, built by appending one
      member at a time; a later member with the same id overwrites its dependencies. */
  function ClusterGroups(index: Index, mods: seq<ClusterModule>): (r: Result<(seq<Group>, map<string, seq<string>>), Failure>)
    ensures r.Ok? ==> GroupsResolve(index, mods, r.value.0) && DepsOfLast(mods, r.value.1)
    ensures r.Err? <==> exists i :: 0 <= i < |mods| && FindCcFullDescFiles(index, mods[i].id, RecursionLimit).Err?
    decreases |mods|
  {
    if mods == [] then Ok(([], map[]))
    else
      var n := |mods| - 1;
      FailureInPrefix(index, mods);
      match ClusterGroups(index, mods[..n])
      case Err(e) => Err(e)
      case Ok(acc) =>
        match FindCcFullDescFiles(index, mods[n].id, RecursionLimit)
        case Err(e) => Err(e)
        case Ok(files) =>
          GroupsResolveSnoc(index, mods, acc.0, files);
          DepsOfLastSnoc(mods, acc.1);
          Ok((acc.0 + [Group(mods[n].id, files)], acc.1[mods[n].id := mods[n].predecessors]))
  }

  /** Some module fails to resolve exactly when one of all but the last does, or the last does. */
  lemma FailureInPrefix(index: Index, mods: seq<ClusterModule>)
    requires mods != []
    ensures var n := |mods| - 1;
            (exists i :: 0 <= i < |mods| && FindCcFullDescFiles(index, mods[i].id, RecursionLimit).Err?)
            <==> (|| (exists i :: 0 <= i < n && FindCcFullDescFiles(index, mods[..n][i].id, RecursionLimit).Err?)
                  || FindCcFullDescFiles(index, mods[n].id, RecursionLimit).Err?)
  {
    var n := |mods| - 1;
    assert forall i :: 0 <= i < n ==> mods[..n][i] == mods[i];
  }

  /** Appending the group of one more module keeps every group tied to its module. */
  lemma GroupsResolveSnoc(index: Index, mods: seq<ClusterModule>, grps: seq<Group>, files: seq<string>)
    requires mods != [] && GroupsResolve(index, mods[..|mods| - 1], grps)
    requires FindCcFullDescFiles(index, mods[|mods| - 1].id, RecursionLimit) == Ok(files)
    ensures GroupsResolve(index, mods, grps + [Group(mods[|mods| - 1].id, files)])
  {
    var n := |mods| - 1;
    var grps' := grps + [Group(mods[n].id, files)];
    forall i | 0 <= i < |mods|
      ensures grps'[i].id == mods[i].id && FindCcFullDescFiles(index, mods[i].id, RecursionLimit) == Ok(grps'[i].ccFullDescFiles)
    {
      if i < n {
        assert mods[..n][i] == mods[i];
      }
    }
  }

  /** Recording one more module's predecessors keeps `deps` at the last module of each id. */
  lemma DepsOfLastSnoc(mods: seq<ClusterModule>, deps: map<string, seq<string>>)
    requires mods != [] && DepsOfLast(mods[..|mods| - 1], deps)
    ensures var m := mods[|mods| - 1]; DepsOfLast(mods, deps[m.id := m.predecessors])
  {
    var n := |mods| - 1;
    var m := mods[n];
    var deps' := deps[m.id := m.predecessors];
    var prefix := mods[..n];
    assert forall i :: 0 <= i < n ==> prefix[i] == mods[i];
    forall k
      ensures k in deps' <==> exists i :: 0 <= i < |mods| && mods[i].id == k
    {
      if k in deps && k != m.id {
        var i :| 0 <= i < n && prefix[i].id == k;
        assert mods[i].id == k;
      }
      if k != m.id && (exists i :: 0 <= i < |mods| && mods[i].id == k) {
        var i :| 0 <= i < |mods| && mods[i].id == k;
        assert prefix[i].id == k;
      }
    }
    forall i | 0 <= i < |mods| && (forall j :: i < j < |mods| ==> mods[j].id != mods[i].id)
      ensures mods[i].id in deps' && deps'[mods[i].id] == mods[i].predecessors
    {
      if i < n {
        assert prefix[i] == mods[i];
        assert forall j :: i < j < n ==> prefix[j].id != prefix[i].id;
      }
    }
  }

  /** The description of one cluster under a graph-partitioning strategy. The module name that
      triggered the cluster is resolved too, although its files are not used. */
  function ClusterDesc(index: Index, name: string, cluster: Cluster): (r: Result<VerificationObjDesc, Failure>)
    ensures r.Ok? ==> && r.value.id == "linux/" + cluster.root + cluster.hash
                      && GroupsResolve(index, cluster.modules, r.value.grps)
                      && DepsOfLast(cluster.modules, r.value.deps)
                      && DepsMatchGroups(r.value)
    ensures r.Err? <==> || FindCcFullDescFiles(index, name, RecursionLimit).Err?
                        || exists i :: 0 <= i < |cluster.modules|
                             && FindCcFullDescFiles(index, cluster.modules[i].id, RecursionLimit).Err?
  {
    var _ :- FindCcFullDescFiles(index, name, RecursionLimit);
    var acc :- ClusterGroups(index, cluster.modules);
    Ok(VerificationObjDesc("linux/" + cluster.root + cluster.hash, acc.0, acc.1))
  }

  /** `generate_verification_obj_desc`: dispatch on the strategy; `cluster` is the cluster being
      processed and is ignored under separate modules. */
  function GenerateVerificationObjDesc(strategy: Strategy, index: Index, name: string, cluster: Cluster)
    : (r: Result<VerificationObjDesc, Failure>)
    ensures strategy.Unsupported? ==> r == Err(UnsupportedStrategy(strategy.name))
    ensures r.Ok? ==> DepsMatchGroups(r.value)
  {
    match strategy
    case SeparateModules => SeparateModuleDesc(index, name)
    case Unsupported(n) => Err(UnsupportedStrategy(n))
    case _ => ClusterDesc(index, name, cluster)
  }

  // ---------------------------------------------------------------------------
  // The emission loop as a function of the module names read so far
  // ---------------------------------------------------------------------------

  /** The descriptions emitted so far, the dedup set, and the exception that stopped the loop. */
  datatype EmitState = EmitState(emitted: seq<VerificationObjDesc>, seen: set<string>, failure: Option<Failure>)

  /** Descriptions for the first `|clusters|` clusters of one module, stopping at a failure. */
  function EmitClusters(index: Index, name: string, clusters: seq<Cluster>, s: EmitState): EmitState
    decreases |clusters|
  {
    if clusters == [] then s
    else
      var t := EmitClusters(index, name, clusters[..|clusters| - 1], s);
      if t.failure.Some? then t
      else match ClusterDesc(index, name, clusters[|clusters| - 1])
        case Ok(v) => t.(emitted := t.emitted + [v])
        case Err(e) => t.(failure := Some(e))
  }

  /** Handling one module name read from the module names queue. */
  function EmitModule(strategy: Strategy, index: Index, name: string, s: EmitState): EmitState {
    match strategy
    case SeparateModules =>
      if name in s.seen then s
      else
        var t := s.(seen := s.seen + {name});
        (match SeparateModuleDesc(index, name)
         case Ok(v) => t.(emitted := t.emitted + [v])
         case Err(e) => t.(failure := Some(e)))
    case Unsupported(_) => s
    case _ => EmitClusters(index, name, strategy.divide(name), s)
  }

  /** The state after handling `names` in order, starting from an empty output and the dedup
      set `seen`; an exception ends the loop. */
  function EmitAll(strategy: Strategy, index: Index, names: seq<string>, seen: set<string>): EmitState
    decreases |names|
  {
    if names == [] then EmitState([], seen, None)
    else
      var s := EmitAll(strategy, index, names[..|names| - 1], seen);
      if s.failure.Some? then s else EmitModule(strategy, index, names[|names| - 1], s)
  }

  /** Every emitted description has exactly one `deps` key per group id. */
  lemma {:induction false} EmittedDescsWellFormed(strategy: Strategy, index: Index, names: seq<string>, seen: set<string>)
    ensures forall v :: v in EmitAll(strategy, index, names, seen).emitted ==> DepsMatchGroups(v)
    decreases |names|
  {
    if names != [] {
      var s := EmitAll(strategy, index, names[..|names| - 1], seen);
      EmittedDescsWellFormed(strategy, index, names[..|names| - 1], seen);
      if s.failure.None? && strategy.Partitions() {
        var name := names[|names| - 1];
        EmitClustersWellFormed(index, name, strategy.divide(name), s);
      }
    }
  }

  lemma {:induction false} EmitClustersWellFormed(index: Index, name: string, clusters: seq<Cluster>, s: EmitState)
    requires forall v :: v in s.emitted ==> DepsMatchGroups(v)
    ensures forall v :: v in EmitClusters(index, name, clusters, s).emitted ==> DepsMatchGroups(v)
    decreases |clusters|
  {
    if clusters != [] {
      EmitClustersWellFormed(index, name, clusters[..|clusters| - 1], s);
    }
  }

  /** An unsupported strategy name emits nothing and raises nothing: the loop only drains the
      queue, because `generate_verification_obj_desc` is never called for it. */
  lemma {:induction false} UnsupportedStrategyEmitsNothing(name: string, index: Index, names: seq<string>, seen: set<string>)
    ensures EmitAll(Unsupported(name), index, names, seen) == EmitState([], seen, None)
    decreases |names|
  {
    if names != [] {
      UnsupportedStrategyEmitsNothing(name, index, names[..|names| - 1], seen);
    }
  }

  /** The names not in `seen`, each at its first occurrence. */
  function FirstOccurrences(names: seq<string>, seen: set<string>): seq<string>
    decreases |names|
  {
    if names == [] then []
    else
      var prefix := names[..|names| - 1];
      var last := names[|names| - 1];
      FirstOccurrences(prefix, seen)
      + (if last in seen || last in prefix then [] else [last])
  }

  lemma {:induction false} FirstOccurrencesProperties(names: seq<string>, seen: set<string>)
    ensures forall x :: x in FirstOccurrences(names, seen) <==> x in names && x !in seen
    ensures forall i, j :: 0 <= i < j < |FirstOccurrences(names, seen)| ==>
              FirstOccurrences(names, seen)[i] != FirstOccurrences(names, seen)[j]
    decreases |names|
  {
    if names != [] {
      var prefix := names[..|names| - 1];
      FirstOccurrencesProperties(prefix, seen);
      assert names == prefix + [names[|names| - 1]];
    }
  }

  /** Under separate modules, a run without exception emits one description per distinct new
      module name, in order of first arrival, and records every name in the dedup set. */
  lemma {:induction false} SeparateModulesEmitsFirstOccurrences(index: Index, names: seq<string>, seen: set<string>)
    requires EmitAll(SeparateModules, index, names, seen).failure.None?
    ensures var s := EmitAll(SeparateModules, index, names, seen);
            var firsts := FirstOccurrences(names, seen);
            && (forall x :: x in s.seen <==> x in seen || x in names)
            && |s.emitted| == |firsts|
            && forall i :: 0 <= i < |firsts| ==> SeparateModuleDesc(index, firsts[i]) == Ok(s.emitted[i])
    decreases |names|
  {
    if names != [] {
      var prefix := names[..|names| - 1];
      var last := names[|names| - 1];
      assert names == prefix + [last];
      var s := EmitAll(SeparateModules, index, prefix, seen);
      assert s.failure.None?;
      SeparateModulesEmitsFirstOccurrences(index, prefix, seen);
      assert last in s.seen <==> last in seen || last in prefix;
      assert EmitAll(SeparateModules, index, names, seen) == EmitModule(SeparateModules, index, last, s);
      SeparateModuleStep(index, last, s);
    }
  }

  /** Under separate modules a name already seen adds nothing; a new one is recorded and adds
      its own description. */
  lemma SeparateModuleStep(index: Index, name: string, s: EmitState)
    requires EmitModule(SeparateModules, index, name, s).failure.None?
    ensures var t := EmitModule(SeparateModules, index, name, s);
            && t.seen == s.seen + {name}
            && (name in s.seen ==> t.emitted == s.emitted)
            && (name !in s.seen ==> && SeparateModuleDesc(index, name).Ok?
                                    && t.emitted == s.emitted + [SeparateModuleDesc(index, name).value])
  {
  }

  /** Under separate modules, every module name that arrives yields exactly one description,
      with id "linux/" + name, however often the name arrives. */
  lemma ExactlyOneDescPerModule(index: Index, names: seq<string>, name: string)
    requires EmitAll(SeparateModules, index, names, {}).failure.None?
    requires name in names
    ensures var e := EmitAll(SeparateModules, index, names, {}).emitted;
            exists i :: 0 <= i < |e| && e[i].id == "linux/" + name
                        && forall j :: 0 <= j < |e| && e[j].id == "linux/" + name ==> j == i
  {
    var e := EmitAll(SeparateModules, index, names, {}).emitted;
    var firsts := FirstOccurrences(names, {});
    SeparateModulesEmitsFirstOccurrences(index, names, {});
    FirstOccurrencesProperties(names, {});
    var i :| 0 <= i < |firsts| && firsts[i] == name;
    forall j | 0 <= j < |e| && e[j].id == "linux/" + name
      ensures j == i
    {
      var p := "linux/";
      assert e[j].id == p + firsts[j];
      assert firsts[j] == (p + firsts[j])[|p|..];
      assert name == (p + name)[|p|..];
    }
  }

  // ---------------------------------------------------------------------------
  // The two pipeline stages
  // ---------------------------------------------------------------------------

  /** The generator's state shared by the ingest stage and the emission stage. */
  class Generator {
    /** The `modules` entry of the Linux kernel configuration, if present. */
    const modules: Option<seq<string>>
    const strategy: Strategy
    /** Descriptions indexed by output file (`linux_kernel_build_cmd_out_file_desc`). */
    var index: Index
    /** Everything put on the module names queue so far. */
    var moduleNames: seq<Option<string>>
    /** Module names already turned into a description (`all_modules`). */
    var allModules: set<string>
    /** The verification object descriptions generated so far. */
    var emitted: seq<VerificationObjDesc>

    constructor (modules: Option<seq<string>>, strategy: Strategy)
      ensures this.modules == modules && this.strategy == strategy
      ensures index == map[] && moduleNames == [] && allModules == {} && emitted == []
    {
      this.modules := modules;
      this.strategy := strategy;
      index := map[];
      moduleNames := [];
      allModules := {};
      emitted := [];
    }

    /** `process_linux_kernel_build_cmd_desc`: index the description and forward the module
        name when it selects a module. */
    method ProcessBuildCmdDesc(desc: BuildCmdDesc)
      modifies this`index, this`moduleNames
      ensures index == old(index)[desc.outFile := desc]
      ensures moduleNames == old(moduleNames) + (if IsSelectedModule(desc, modules) then [Some(desc.outFile)] else [])
    {
      index := index[desc.outFile := desc];
      if desc.cmdType == LD && EndsWith(desc.outFile, ".ko") {
        var matched := false;
        if modules.Some? {
          if "all" in modules.value {
            matched := true;
          } else {
            var i := 0;
            while i < |modules.value|
              invariant 0 <= i <= |modules.value|
              invariant matched <==> exists j :: 0 <= j < i && StartsWith(desc.outFile, modules.value[j])
            {
              if StartsWith(desc.outFile, modules.value[i]) {
                matched := true;
                break;
              }
              i := i + 1;
            }
          }
        }
        if matched {
          moduleNames := moduleNames + [Some(desc.outFile)];
        }
      }
    }

    /** One iteration of the ingest loop, stated against the descriptions taken so far. */
    method IngestNext(desc: BuildCmdDesc, ghost taken: seq<BuildCmdDesc>, ghost index0: Index,
                      ghost names0: seq<Option<string>>)
      requires index == Ingest(index0, taken)
      requires moduleNames == names0 + ToQueue(SelectedNames(taken, modules))
      modifies this`index, this`moduleNames
      ensures index == Ingest(index0, taken + [desc])
      ensures moduleNames == names0 + ToQueue(SelectedNames(taken + [desc], modules))
    {
      IngestSnoc(index0, taken, desc);
      SelectedQueueSnoc(names0, taken, desc, modules);
      ProcessBuildCmdDesc(desc);
    }

    /** `process_all_linux_kernel_build_cmd_descs`: handle descriptions up to the sentinel, then
        put exactly one sentinel on the module names queue. */
    method ProcessAllBuildCmdDescs(queue: seq<Option<BuildCmdDesc>>)
      requires None in queue
      modifies this`index, this`moduleNames
      ensures index == Ingest(old(index), UpToSentinel(queue))
      ensures moduleNames == old(moduleNames) + ToQueue(SelectedNames(UpToSentinel(queue), modules)) + [None]
    {
      ghost var descs := UpToSentinel(queue);
      UpToSentinelStops(queue);
      var i := 0;
      while true
        invariant 0 <= i <= |descs|
        invariant index == Ingest(old(index), descs[..i])
        invariant moduleNames == old(moduleNames) + ToQueue(SelectedNames(descs[..i], modules))
        decreases |descs| - i
      {
        var desc := queue[i];
        if desc.None? {
          assert descs[..i] == descs;
          moduleNames := moduleNames + [None];
          return;
        }
        assert descs[..i + 1] == descs[..i] + [desc.value];
        IngestNext(desc.value, descs[..i], old(index), old(moduleNames));
        i := i + 1;
      }
    }

    /** `generate_verification_obj_desc` for the module `name` and the current cluster. */
    method GenerateVerificationObjDescFor(name: string, cluster: Cluster) returns (r: Result<VerificationObjDesc, Failure>)
      ensures r == GenerateVerificationObjDesc(strategy, index, name, cluster)
    {
      match strategy {
        case SeparateModules =>
          r := SeparateModuleDesc(index, name);
        case Unsupported(n) =>
          r := Err(UnsupportedStrategy(n));
        case _ =>
          var own := FindCcFullDescFiles(index, name, RecursionLimit);
          if own.Err? {
            return Err(own.error);
          }
          var acc := CollectGroups(cluster.modules);
          if acc.Err? {
            return Err(acc.error);
          }
          r := Ok(VerificationObjDesc("linux/" + cluster.root + cluster.hash, acc.value.0, acc.value.1));
      }
    }

    /** The loop over the modules of a cluster: one group of files and one dependency entry per
        module, stopping at the first module whose files cannot be found. */
    method CollectGroups(mods: seq<ClusterModule>) returns (r: Result<(seq<Group>, map<string, seq<string>>), Failure>)
      ensures r == ClusterGroups(index, mods)
    {
      var grps: seq<Group> := [];
      var deps: map<string, seq<string>> := map[];
      var i := 0;
      while i < |mods|
        invariant 0 <= i <= |mods|
        invariant ClusterGroups(index, mods[..i]) == Ok((grps, deps))
      {
        var m := mods[i];
        var files := FindCcFullDescFiles(index, m.id, RecursionLimit);
        assert mods[..i + 1][..i] == mods[..i];
        if files.Err? {
          assert ClusterGroups(index, mods[..i + 1]) == Err(files.error);
          ClusterGroupsFailurePersists(index, mods, i + 1);
          return Err(files.error);
        }
        grps := grps + [Group(m.id, files.value)];
        deps := deps[m.id := m.predecessors];
        i := i + 1;
      }
      assert mods[..i] == mods;
      r := Ok((grps, deps));
    }

    /** The body of the loop of `generate_all_verification_obj_descs` for one module name:
        under separate modules generate the name once, under a partitioning strategy generate
        one description per cluster; an exception is returned. */
    method HandleModuleName(name: string) returns (failure: Option<Failure>)
      modifies this`allModules, this`emitted
      ensures var t := EmitModule(strategy, index, name, EmitState([], old(allModules), None));
              emitted == old(emitted) + t.emitted && allModules == t.seen && failure == t.failure
    {
      failure := None;
      match strategy {
        case SeparateModules =>
          if name !in allModules {
            allModules := allModules + {name};
            var r := GenerateVerificationObjDescFor(name, Cluster(name, [], ""));
            if r.Err? {
              return Some(r.error);
            }
            emitted := emitted + [r.value];
          }
        case Unsupported(_) =>
        case _ =>
          var added;
          added, failure := ClusterDescsFor(name);
          emitted := emitted + added;
      }
    }

    /** The descriptions of the clusters `name` is divided into, in order, up to the first
        exception; nothing is changed, so the caller appends them. */
    method ClusterDescsFor(name: string) returns (added: seq<VerificationObjDesc>, failure: Option<Failure>)
      requires strategy.Closure? || strategy.Scotch?
      ensures EmitClusters(index, name, strategy.divide(name), EmitState([], allModules, None))
              == EmitState(added, allModules, failure)
    {
      var clusters := strategy.divide(name);
      var start := EmitState([], allModules, None);
      added := [];
      failure := None;
      var j := 0;
      while j < |clusters|
        invariant 0 <= j <= |clusters|
        invariant EmitClusters(index, name, clusters[..j], start) == EmitState(added, allModules, None)
      {
        var r := GenerateVerificationObjDescFor(name, clusters[j]);
        EmitClustersSnoc(index, name, clusters, j, start);
        if r.Err? {
          EmitClustersStopsAtFailure(index, name, clusters, j + 1, start);
          return added, Some(r.error);
        }
        added := added + [r.value];
        j := j + 1;
      }
      assert clusters[..j] == clusters;
    }

    /** `generate_all_verification_obj_descs`: handle module names up to the sentinel; an
        exception ends the loop and is returned. */
    method GenerateAllVerificationObjDescs(queue: seq<Option<string>>) returns (failure: Option<Failure>)
      requires None in queue
      modifies this`allModules, this`emitted
      ensures var s := EmitAll(strategy, index, UpToSentinel(queue), old(allModules));
              emitted == old(emitted) + s.emitted && allModules == s.seen && failure == s.failure
    {
      ghost var names := UpToSentinel(queue);
      UpToSentinelStops(queue);
      var i := 0;
      ghost var out: seq<VerificationObjDesc> := [];
      failure := None;
      while true
        invariant 0 <= i <= |names|
        invariant EmitAll(strategy, index, names[..i], old(allModules)) == EmitState(out, allModules, None)
        invariant emitted == old(emitted) + out && failure == None
        decreases |names| - i
      {
        var next := queue[i];
        if next.None? {
          assert names[..i] == names;
          return;
        }
        var name := next.value;
        assert names[..i + 1] == names[..i] + [name];
        ghost var t := EmitModule(strategy, index, name, EmitState([], allModules, None));
        EmitAllStep(strategy, index, names[..i], name, old(allModules), out, allModules);
        ghost var e0 := emitted;
        var f := HandleModuleName(name);
        assert emitted == old(emitted) + (out + t.emitted) by {
          assert emitted == e0 + t.emitted && e0 == old(emitted) + out;
        }
        out := out + t.emitted;
        if f.Some? {
          assert names[..i + 1] + names[i + 1..] == names;
          EmitAllStopsAtFailure(strategy, index, names[..i + 1], names[i + 1..], old(allModules));
          return f;
        }
        i := i + 1;
      }
    }
  }

  /** One more name on the queue: the loop's state advances by handling that name alone. */
  lemma EmitAllStep(strategy: Strategy, index: Index, names: seq<string>, name: string,
                    seen0: set<string>, out: seq<VerificationObjDesc>, seen: set<string>)
    requires EmitAll(strategy, index, names, seen0) == EmitState(out, seen, None)
    ensures var t := EmitModule(strategy, index, name, EmitState([], seen, None));
            EmitAll(strategy, index, names + [name], seen0) == EmitState(out + t.emitted, t.seen, t.failure)
  {
    assert (names + [name])[..|names|] == names;
    EmitModuleShift(strategy, index, name, out, seen);
  }

  /** Handling a name appends to whatever was emitted before, independently of it. */
  lemma EmitModuleShift(strategy: Strategy, index: Index, name: string, out: seq<VerificationObjDesc>, seen: set<string>)
    ensures var t := EmitModule(strategy, index, name, EmitState([], seen, None));
            EmitModule(strategy, index, name, EmitState(out, seen, None)) == EmitState(out + t.emitted, t.seen, t.failure)
  {
    if strategy.Partitions() {
      EmitClustersShift(index, name, strategy.divide(name), out, seen);
    }
  }

  lemma {:induction false} EmitClustersShift(index: Index, name: string, clusters: seq<Cluster>,
                                             out: seq<VerificationObjDesc>, seen: set<string>)
    ensures var t := EmitClusters(index, name, clusters, EmitState([], seen, None));
            EmitClusters(index, name, clusters, EmitState(out, seen, None)) == EmitState(out + t.emitted, t.seen, t.failure)
    decreases |clusters|
  {
    if clusters != [] {
      EmitClustersShift(index, name, clusters[..|clusters| - 1], out, seen);
    }
  }

  /** The contents of a queue that carries `names`. */
  function ToQueue<T>(names: seq<T>): (q: seq<Option<T>>)
    ensures |q| == |names| && forall i :: 0 <= i < |q| ==> q[i] == Some(names[i])
  {
    seq(|names|, i requires 0 <= i < |names| => Some(names[i]))
  }

  /** Forwarding one more description's module name extends the module names queue. */
  lemma SelectedQueueSnoc(prefix: seq<Option<string>>, descs: seq<BuildCmdDesc>, d: BuildCmdDesc,
                          modules: Option<seq<string>>)
    ensures prefix + ToQueue(SelectedNames(descs + [d], modules))
            == prefix + ToQueue(SelectedNames(descs, modules))
               + (if IsSelectedModule(d, modules) then [Some(d.outFile)] else [])
  {
    var added := if IsSelectedModule(d, modules) then [d.outFile] else [];
    SelectedNamesSnoc(descs, d, modules);
    ToQueueAppend(SelectedNames(descs, modules), added);
    assert ToQueue(added) == if IsSelectedModule(d, modules) then [Some(d.outFile)] else [];
  }

  lemma ToQueueAppend(a: seq<string>, b: seq<string>)
    ensures ToQueue(a + b) == ToQueue(a) + ToQueue(b)
  {
  }

  lemma {:induction false} ClusterGroupsFailurePersists(index: Index, mods: seq<ClusterModule>, n: nat)
    requires n <= |mods| && ClusterGroups(index, mods[..n]).Err?
    ensures ClusterGroups(index, mods) == ClusterGroups(index, mods[..n])
    decreases |mods| - n
  {
    if n < |mods| {
      assert mods[..n + 1][..n] == mods[..n];
      ClusterGroupsFailurePersists(index, mods, n + 1);
    } else {
      assert mods[..n] == mods;
    }
  }

  /** One more cluster adds its description, or records its failure. */
  lemma EmitClustersSnoc(index: Index, name: string, clusters: seq<Cluster>, j: nat, s: EmitState)
    requires j < |clusters|
    ensures var t := EmitClusters(index, name, clusters[..j], s);
            var r := ClusterDesc(index, name, clusters[j]);
            t.failure.None? ==>
              EmitClusters(index, name, clusters[..j + 1], s)
              == if r.Ok? then t.(emitted := t.emitted + [r.value]) else t.(failure := Some(r.error))
  {
    assert clusters[..j + 1][..j] == clusters[..j];
  }

  lemma {:induction false} EmitClustersStopsAtFailure(index: Index, name: string, clusters: seq<Cluster>, n: nat, s: EmitState)
    requires n <= |clusters| && EmitClusters(index, name, clusters[..n], s).failure.Some?
    ensures EmitClusters(index, name, clusters, s) == EmitClusters(index, name, clusters[..n], s)
    decreases |clusters| - n
  {
    if n < |clusters| {
      assert clusters[..n + 1][..n] == clusters[..n];
      EmitClustersStopsAtFailure(index, name, clusters, n + 1, s);
    } else {
      assert clusters[..n] == clusters;
    }
  }

  /** Once the loop has raised, later names change nothing. */
  lemma {:induction false} EmitAllStopsAtFailure(strategy: Strategy, index: Index, names: seq<string>,
                                                 later: seq<string>, seen: set<string>)
    requires EmitAll(strategy, index, names, seen).failure.Some?
    ensures EmitAll(strategy, index, names + later, seen) == EmitAll(strategy, index, names, seen)
    decreases |later|
  {
    if later == [] {
      assert names + later == names;
    } else {
      var n := |later| - 1;
      assert (names + later)[..|names + later| - 1] == names + later[..n];
      EmitAllStopsAtFailure(strategy, index, names, later[..n], seen);
    }
  }

  /** The whole pipeline: the extractor's queue is ingested, then the module names queue it
      produced drives the emission (the two stages run concurrently in the source). */
  method RunPipeline(raws: seq<RawBuildCmd>, modules: Option<seq<string>>, strategy: Strategy)
    returns (g: Generator, failure: Option<Failure>)
    ensures var descs := UpToSentinel(BuildCmdDescsQueue(raws));
            && g.index == Ingest(map[], descs)
            && g.moduleNames == ToQueue(SelectedNames(descs, modules)) + [None]
            && var s := EmitAll(strategy, g.index, SelectedNames(descs, modules), {});
               g.emitted == s.emitted && g.allModules == s.seen && failure == s.failure
  {
    g := new Generator(modules, strategy);
    var queue := BuildCmdDescsQueue(raws);
    assert queue[|raws|] == None;
    g.ProcessAllBuildCmdDescs(queue);
    ghost var names := SelectedNames(UpToSentinel(queue), modules);
    assert g.moduleNames[|names|] == None;
    UpToSentinelOfQueue(names);
    failure := g.GenerateAllVerificationObjDescs(g.moduleNames);
  }

  lemma {:induction false} UpToSentinelOfQueue<T>(names: seq<T>)
    ensures UpToSentinel(ToQueue(names) + [None]) == names
    decreases |names|
  {
    if names != [] {
      assert (ToQueue(names) + [None])[1..] == ToQueue(names[1..]) + [None];
      UpToSentinelOfQueue(names[1..]);
    }
  }
}
