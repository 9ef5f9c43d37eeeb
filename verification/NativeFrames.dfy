/**
 * Native symbolization: frames batched by module, results put back in frame order.
 */
module NativeFrames {
  import opened Prelude

  datatype Frame = Frame(abi: string, buildId: string, moduleName: string, pc: nat)

  /** The release an event occurred in, and an artifact was uploaded for. */
  datatype Scope = Scope(tenant: string, app: string, versionCode: string, build: string, variant: string)

  datatype Artifact = Artifact(id: nat, sha: string, scope: Scope, abi: string, buildId: string, native: bool, active: bool)

  datatype ModuleKey = ModuleKey(abi: string, buildId: string)

  lemma LowerTwice(s: string)
    ensures Lower(Lower(s)) == Lower(s)
  {
  }

  function KeyOf(f: Frame): ModuleKey {
    ModuleKey(f.abi, Lower(f.buildId))
  }

  // ----- the tool -----

  datatype Failure =
    | ArtifactMissing | ArtifactMismatch | BlobMissing | ToolFailed(code: string) | OutputTooLarge | InvalidOutput | Unresolved

  /** One frame's output lines. */
  datatype Block = Block(lines: seq<string>)

  datatype Output = Output(bytes: nat, blocks: seq<Block>)

  /** What the batching can see: the event's scope, the artifacts by module, files, and the tool. */
  datatype Env = Env(
    scope: Scope, artifacts: map<ModuleKey, Artifact>, present: Artifact -> bool,
    run: (Artifact, seq<nat>) -> Result<Output, Failure>)

  const MAX_OUTPUT_BYTES: nat := 1048576

  // ----- one frame's verdict -----

  datatype FrameState = UNRESOLVED | FUNCTION_ONLY | RESOLVED

  datatype FrameResult = FrameResult(
    index: nat, frame: Frame, buildId: string, artifact: Artifact, function_: string, location: string, state: FrameState)

  predicate AllDigits(s: string) {
    s != "" && forall i :: 0 <= i < |s| ==> '0' <= s[i] <= '9'
  }

  function LastColon(s: string): (r: Option<nat>)
    ensures r.Some? ==> r.value < |s|
  {
    if s == "" then None else if s[|s| - 1] == ':' then Some(|s| - 1) else LastColon(s[..|s| - 1])
  }

  /** file:line:column with a known file and a line other than 0. */
  predicate NamesSource(location: string) {
    match LastColon(location)
    case None => false
    case Some(j) =>
      match LastColon(location[..j])
      case None => false
      case Some(k) =>
        var line := location[k + 1..j];
        AllDigits(location[j + 1..]) && AllDigits(line) && k > 0 && location[..k] != "??" && (exists c :: c in line && c != '0')
  }

  function StateOf(function_: string, location: string): FrameState {
    if function_ == "" || function_ == "??" then UNRESOLVED
    else if NamesSource(location) then RESOLVED
    else FUNCTION_ONLY
  }

  function ResultOf(i: nat, f: Frame, a: Artifact, b: Block): FrameResult
    requires |b.lines| == 2
  {
    FrameResult(i, f, Lower(f.buildId), a, b.lines[0], b.lines[1], StateOf(b.lines[0], b.lines[1]))
  }

  // ----- batching -----

  /** The modules of the frames, in order of first appearance. */
  function ModulesOf(frames: seq<Frame>): seq<ModuleKey> {
    if frames == [] then []
    else
      var n := |frames| - 1;
      var before := ModulesOf(frames[..n]);
      if KeyOf(frames[n]) in before then before else before + [KeyOf(frames[n])]
  }

  /** The indexes of one module's frames, ascending. */
  function MembersOf(frames: seq<Frame>, k: ModuleKey): (r: seq<nat>)
    ensures forall j :: 0 <= j < |r| ==> r[j] < |frames| && KeyOf(frames[r[j]]) == k
  {
    if frames == [] then []
    else
      var n := |frames| - 1;
      MembersOf(frames[..n], k) + (if KeyOf(frames[n]) == k then [n] else [])
  }

  function PcsOf(frames: seq<Frame>, members: seq<nat>): seq<nat>
    requires forall j :: 0 <= j < |members| ==> members[j] < |frames|
  {
    seq(|members|, j requires 0 <= j < |members| => frames[members[j]].pc)
  }

  /** Why a module's artifact cannot be used. */
  function ArtifactFailure(env: Env, k: ModuleKey): Option<Failure> {
    if k !in env.artifacts then Some(ArtifactMissing)
    else
      var a := env.artifacts[k];
      if a.scope != env.scope || a.abi != k.abi || Lower(a.buildId) != k.buildId then Some(ArtifactMismatch)
      else if !env.present(a) then Some(BlobMissing)
      else None
  }

  type Results = map<nat, FrameResult>

  /** Store the blocks of one module at the indexes of its frames. */
  function Place(frames: seq<Frame>, members: seq<nat>, a: Artifact, blocks: seq<Block>, results: Results): Result<Results, Failure>
    requires |blocks| == |members| && forall j :: 0 <= j < |members| ==> members[j] < |frames|
  {
    if members == [] then Ok(results)
    else if |blocks[0].lines| != 2 then Err(InvalidOutput)
    else
      var i := members[0];
      Place(frames, members[1..], a, blocks[1..], results[i := ResultOf(i, frames[i], a, blocks[0])])
  }

  datatype Progress = Progress(bytes: nat, results: Results)

  /** One module: check its artifact, run the tool once, place the blocks. */
  function SymbolizeModule(env: Env, frames: seq<Frame>, k: ModuleKey, p: Progress): Result<Progress, Failure> {
    match ArtifactFailure(env, k)
    case Some(f) => Err(f)
    case None =>
      var a := env.artifacts[k];
      var members := MembersOf(frames, k);
      match env.run(a, PcsOf(frames, members))
      case Err(f) => Err(f)
      case Ok(output) =>
        if p.bytes + output.bytes > MAX_OUTPUT_BYTES then Err(OutputTooLarge)
        else if |output.blocks| != |members| then Err(InvalidOutput)
        else match Place(frames, members, a, output.blocks, p.results)
          case Err(f) => Err(f)
          case Ok(results) => Ok(Progress(p.bytes + output.bytes, results))
  }

  /** The modules one after the other, stopping at the first failure. */
  function SymbolizeModules(env: Env, frames: seq<Frame>, keys: seq<ModuleKey>, p: Progress): Result<Progress, Failure>
    decreases |keys|
  {
    if keys == [] then Ok(p)
    else match SymbolizeModule(env, frames, keys[0], p)
      case Err(f) => Err(f)
      case Ok(q) => SymbolizeModules(env, frames, keys[1..], q)
  }

  datatype Status = Full | Partial

  datatype NativeResult = NativeResult(frames: seq<FrameResult>, resolved: nat, status: Status)

  function CountResolved(frames: seq<FrameResult>): nat {
    if frames == [] then 0
    else CountResolved(frames[..|frames| - 1]) + (if frames[|frames| - 1].state != UNRESOLVED then 1 else 0)
  }

  predicate AllResolved(frames: seq<FrameResult>) {
    forall i :: 0 <= i < |frames| ==> frames[i].state == RESOLVED
  }

  /** Full, partial or failed, by the states of the ordered frames. */
  function Conclude(ordered: seq<FrameResult>): Result<NativeResult, Failure> {
    var resolved := CountResolved(ordered);
    if resolved == 0 then Err(Unresolved)
    else Ok(NativeResult(ordered, resolved, if AllResolved(ordered) then Full else Partial))
  }

  // ----- the tool answers frame by frame -----

  /** The tool's answer for a list of addresses is the list of its answers. */
  ghost predicate Pointwise(env: Env, one: (Artifact, nat) -> Block) {
    forall a: Artifact, pcs: seq<nat> :: env.run(a, pcs).Ok? ==>
      env.run(a, pcs).value.blocks == seq(|pcs|, j requires 0 <= j < |pcs| => one(a, pcs[j]))
  }

  /** One frame symbolized alone with its own module's artifact. */
  ghost predicate AloneResult(env: Env, one: (Artifact, nat) -> Block, frames: seq<Frame>, i: nat, r: FrameResult)
    requires i < |frames|
  {
    var k := KeyOf(frames[i]);
    && ArtifactFailure(env, k) == None
    && |one(env.artifacts[k], frames[i].pc).lines| == 2
    && r == ResultOf(i, frames[i], env.artifacts[k], one(env.artifacts[k], frames[i].pc))
  }

  /** Exactly the frames of the finished modules have results, each its own. */
  ghost predicate Done(env: Env, one: (Artifact, nat) -> Block, frames: seq<Frame>, keys: set<ModuleKey>, results: Results) {
    && (forall i :: i in results ==> i < |frames| && KeyOf(frames[i]) in keys && AloneResult(env, one, frames, i, results[i]))
    && (forall i :: 0 <= i < |frames| && KeyOf(frames[i]) in keys ==> i in results)
  }

  lemma {:induction false} MembersAll(frames: seq<Frame>, k: ModuleKey, i: nat)
    requires i < |frames| && KeyOf(frames[i]) == k
    ensures i in MembersOf(frames, k)
  {
    if i < |frames| - 1 { MembersAll(frames[..|frames| - 1], k, i); }
  }

  /** Placing the answers of some frames adds exactly their results. */
  lemma {:induction false} PlaceAdds(
    env: Env, one: (Artifact, nat) -> Block, frames: seq<Frame>, k: ModuleKey, members: seq<nat>, a: Artifact, blocks: seq<Block>, results: Results)
    requires ArtifactFailure(env, k) == None && a == env.artifacts[k] && |blocks| == |members|
    requires forall j :: 0 <= j < |members| ==> members[j] < |frames| && KeyOf(frames[members[j]]) == k && blocks[j] == one(a, frames[members[j]].pc)
    ensures var r := Place(frames, members, a, blocks, results);
            r.Ok? ==>
              && r.value.Keys == results.Keys + (set j | 0 <= j < |members| :: members[j])
              && (forall i :: i in r.value ==>
                    || (i in results && r.value[i] == results[i])
                    || (i < |frames| && KeyOf(frames[i]) == k && AloneResult(env, one, frames, i, r.value[i])))
  {
    if members != [] && |blocks[0].lines| == 2 {
      var i := members[0];
      var next := results[i := ResultOf(i, frames[i], a, blocks[0])];
      assert AloneResult(env, one, frames, i, next[i]);
      PlaceAdds(env, one, frames, k, members[1..], a, blocks[1..], next);
      assert (set j | 0 <= j < |members| :: members[j]) == {i} + (set j | 0 <= j < |members| - 1 :: members[1..][j]) by {
        forall x | x in members ensures x == i || x in members[1..] {}
      }
    }
  }

  lemma ModuleDone(env: Env, one: (Artifact, nat) -> Block, frames: seq<Frame>, k: ModuleKey, p: Progress, keys: set<ModuleKey>)
    requires Pointwise(env, one) && Done(env, one, frames, keys, p.results)
    ensures var q := SymbolizeModule(env, frames, k, p); q.Ok? ==> Done(env, one, frames, keys + {k}, q.value.results)
  {
    var q := SymbolizeModule(env, frames, k, p);
    if q.Ok? {
      var a, members := env.artifacts[k], MembersOf(frames, k);
      var blocks := env.run(a, PcsOf(frames, members)).value.blocks;
      PlaceAdds(env, one, frames, k, members, a, blocks, p.results);
      forall i | 0 <= i < |frames| && KeyOf(frames[i]) in keys + {k} ensures i in q.value.results {
        if KeyOf(frames[i]) == k {
          MembersAll(frames, k, i);
          var j :| 0 <= j < |members| && members[j] == i;
        }
      }
    }
  }

  lemma {:induction false} ModulesDone(
    env: Env, one: (Artifact, nat) -> Block, frames: seq<Frame>, keys: seq<ModuleKey>, p: Progress, before: set<ModuleKey>)
    requires Pointwise(env, one) && Done(env, one, frames, before, p.results)
    ensures var q := SymbolizeModules(env, frames, keys, p);
            q.Ok? ==> Done(env, one, frames, before + (set k | k in keys), q.value.results)
    decreases |keys|
  {
    if keys == [] {
      assert before + (set k | k in keys) == before;
    } else {
      var m := SymbolizeModule(env, frames, keys[0], p);
      ModuleDone(env, one, frames, keys[0], p, before);
      if m.Ok? {
        ModulesDone(env, one, frames, keys[1..], m.value, before + {keys[0]});
        assert before + {keys[0]} + (set k | k in keys[1..]) == before + (set k | k in keys);
      }
    }
  }

  lemma {:induction false} ModulesListAll(frames: seq<Frame>, i: nat)
    requires i < |frames|
    ensures KeyOf(frames[i]) in ModulesOf(frames)
  {
    if i < |frames| - 1 { ModulesListAll(frames[..|frames| - 1], i); }
  }

  const NOTHING_YET := Progress(0, map[])

  // ----- every index is filled -----

  predicate Fills(results: Results, frames: seq<Frame>, k: ModuleKey) {
    forall i :: 0 <= i < |frames| && KeyOf(frames[i]) == k ==> i in results
  }

  lemma {:induction false} PlaceFills(frames: seq<Frame>, members: seq<nat>, a: Artifact, blocks: seq<Block>, results: Results)
    requires |blocks| == |members| && forall j :: 0 <= j < |members| ==> members[j] < |frames|
    ensures var r := Place(frames, members, a, blocks, results);
            r.Ok? ==> results.Keys <= r.value.Keys && forall i :: i in members ==> i in r.value
  {
    if members != [] && |blocks[0].lines| == 2 {
      var i := members[0];
      PlaceFills(frames, members[1..], a, blocks[1..], results[i := ResultOf(i, frames[i], a, blocks[0])]);
      forall x | x in members ensures x == i || x in members[1..] {}
    }
  }

  lemma ModuleFills(env: Env, frames: seq<Frame>, k: ModuleKey, p: Progress)
    ensures var q := SymbolizeModule(env, frames, k, p);
            q.Ok? ==> p.results.Keys <= q.value.results.Keys && Fills(q.value.results, frames, k)
  {
    var q := SymbolizeModule(env, frames, k, p);
    if q.Ok? {
      var a, members := env.artifacts[k], MembersOf(frames, k);
      PlaceFills(frames, members, a, env.run(a, PcsOf(frames, members)).value.blocks, p.results);
      forall i | 0 <= i < |frames| && KeyOf(frames[i]) == k ensures i in q.value.results { MembersAll(frames, k, i); }
    }
  }

  lemma {:induction false} ModulesFill(env: Env, frames: seq<Frame>, keys: seq<ModuleKey>, p: Progress)
    ensures var q := SymbolizeModules(env, frames, keys, p);
            q.Ok? ==> p.results.Keys <= q.value.results.Keys && forall k :: k in keys ==> Fills(q.value.results, frames, k)
    decreases |keys|
  {
    if keys != [] {
      ModuleFills(env, frames, keys[0], p);
      var m := SymbolizeModule(env, frames, keys[0], p);
      if m.Ok? {
        ModulesFill(env, frames, keys[1..], m.value);
        forall k | k in keys ensures k == keys[0] || k in keys[1..] {}
      }
    }
  }

  lemma AllFilled(env: Env, frames: seq<Frame>)
    ensures var q := SymbolizeModules(env, frames, ModulesOf(frames), NOTHING_YET);
            q.Ok? ==> forall i :: 0 <= i < |frames| ==> i in q.value.results
  {
    var q := SymbolizeModules(env, frames, ModulesOf(frames), NOTHING_YET);
    ModulesFill(env, frames, ModulesOf(frames), NOTHING_YET);
    if q.Ok? {
      forall i | 0 <= i < |frames| ensures i in q.value.results {
        ModulesListAll(frames, i);
        assert Fills(q.value.results, frames, KeyOf(frames[i]));
      }
    }
  }

  /** Group by module, run each module once, put the results back in frame order. */
  function SymbolizeNative(env: Env, frames: seq<Frame>): Result<NativeResult, Failure> {
    match SymbolizeModules(env, frames, ModulesOf(frames), NOTHING_YET)
    case Err(f) => Err(f)
    case Ok(p) =>
      AllFilled(env, frames);
      Conclude(InOrder(p.results, |frames|))
  }

  function InOrder(results: Results, n: nat): seq<FrameResult>
    requires forall i :: 0 <= i < n ==> i in results
  {
    seq(n, i requires 0 <= i < n => results[i])
  }

  // ----- the loops -----

  ghost predicate GroupedFrames(frames: seq<Frame>, order: seq<ModuleKey>, groups: map<ModuleKey, seq<nat>>) {
    && order == ModulesOf(frames)
    && (forall k :: k in groups <==> k in order)
    && (forall k :: k in groups ==> groups[k] == MembersOf(frames, k))
  }

  lemma {:induction false} UnknownHasNoMembers(frames: seq<Frame>, k: ModuleKey)
    requires k !in ModulesOf(frames)
    ensures MembersOf(frames, k) == []
  {
    if frames != [] { UnknownHasNoMembers(frames[..|frames| - 1], k); }
  }

  method GroupFrames(frames: seq<Frame>) returns (order: seq<ModuleKey>, groups: map<ModuleKey, seq<nat>>)
    ensures GroupedFrames(frames, order, groups)
  {
    order, groups := [], map[];
    for i := 0 to |frames|
      invariant GroupedFrames(frames[..i], order, groups)
    {
      var k := KeyOf(frames[i]);
      assert frames[..i + 1][..i] == frames[..i];
      if k !in groups {
        UnknownHasNoMembers(frames[..i], k);
        order := order + [k];
        groups := groups[k := []];
      }
      groups := groups[k := groups[k] + [i]];
    }
    assert frames[..|frames|] == frames;
  }

  method PlaceBlocks(frames: seq<Frame>, members: seq<nat>, a: Artifact, blocks: seq<Block>, results: Results) returns (r: Result<Results, Failure>)
    requires |blocks| == |members| && forall j :: 0 <= j < |members| ==> members[j] < |frames|
    ensures r == Place(frames, members, a, blocks, results)
  {
    var stored: Results := results;
    for j := 0 to |members|
      invariant Place(frames, members, a, blocks, results) == Place(frames, members[j..], a, blocks[j..], stored)
    {
      if |blocks[j].lines| != 2 {
        return Err(InvalidOutput);
      }
      stored := stored[members[j] := ResultOf(members[j], frames[members[j]], a, blocks[j])];
      assert members[j..][1..] == members[j + 1..] && blocks[j..][1..] == blocks[j + 1..];
    }
    r := Ok(stored);
  }

  method RunModule(env: Env, frames: seq<Frame>, k: ModuleKey, members: seq<nat>, p: Progress) returns (r: Result<Progress, Failure>)
    requires members == MembersOf(frames, k)
    ensures r == SymbolizeModule(env, frames, k, p)
  {
    var failure := ArtifactFailure(env, k);
    if failure.Some? {
      return Err(failure.value);
    }
    var a := env.artifacts[k];
    var ran := env.run(a, PcsOf(frames, members));
    if ran.Err? {
      return Err(ran.error);
    }
    if p.bytes + ran.value.bytes > MAX_OUTPUT_BYTES {
      return Err(OutputTooLarge);
    }
    if |ran.value.blocks| != |members| {
      return Err(InvalidOutput);
    }
    var placed := PlaceBlocks(frames, members, a, ran.value.blocks, p.results);
    r := match placed case Err(f) => Err(f) case Ok(results) => Ok(Progress(p.bytes + ran.value.bytes, results));
  }

  /** _symbolize_native: one pass to group, one tool run per module, then the ordered verdict. */
  method RunNative(env: Env, frames: seq<Frame>) returns (r: Result<NativeResult, Failure>)
    ensures r == SymbolizeNative(env, frames)
  {
    var order, groups := GroupFrames(frames);
    var p := NOTHING_YET;
    for j := 0 to |order|
      invariant SymbolizeModules(env, frames, order, NOTHING_YET) == SymbolizeModules(env, frames, order[j..], p)
    {
      assert order[j] in order;
      assert order[j..][1..] == order[j + 1..];
      var m := RunModule(env, frames, order[j], groups[order[j]], p);
      if m.Err? {
        return Err(m.error);
      }
      p := m.value;
    }
    AllFilled(env, frames);
    assert SymbolizeModules(env, frames, ModulesOf(frames), NOTHING_YET) == Ok(p);
    r := Conclude(InOrder(p.results, |frames|));
  }

  // ----- batching changes nothing -----

  /** Whether one module's run goes through, the combined output size aside. */
  ghost predicate ModulePasses(env: Env, one: (Artifact, nat) -> Block, frames: seq<Frame>, k: ModuleKey) {
    && ArtifactFailure(env, k) == None
    && env.run(env.artifacts[k], PcsOf(frames, MembersOf(frames, k))).Ok?
    && forall i :: 0 <= i < |frames| && KeyOf(frames[i]) == k ==> |one(env.artifacts[k], frames[i].pc).lines| == 2
  }

  function BytesOf(env: Env, frames: seq<Frame>, k: ModuleKey): nat {
    if k !in env.artifacts then 0
    else match env.run(env.artifacts[k], PcsOf(frames, MembersOf(frames, k)))
      case Ok(output) => output.bytes
      case Err(_) => 0
  }

  function TotalBytes(env: Env, frames: seq<Frame>, keys: seq<ModuleKey>): nat {
    if keys == [] then 0 else BytesOf(env, frames, keys[0]) + TotalBytes(env, frames, keys[1..])
  }

  lemma {:induction false} PlaceOkIff(frames: seq<Frame>, members: seq<nat>, a: Artifact, blocks: seq<Block>, results: Results)
    requires |blocks| == |members| && forall j :: 0 <= j < |members| ==> members[j] < |frames|
    ensures Place(frames, members, a, blocks, results).Ok? <==> forall j :: 0 <= j < |blocks| ==> |blocks[j].lines| == 2
  {
    if members != [] && |blocks[0].lines| == 2 {
      var i := members[0];
      PlaceOkIff(frames, members[1..], a, blocks[1..], results[i := ResultOf(i, frames[i], a, blocks[0])]);
      assert forall j :: 0 < j < |blocks| ==> blocks[j] == blocks[1..][j - 1];
    }
  }

  lemma ModuleOkIff(env: Env, one: (Artifact, nat) -> Block, frames: seq<Frame>, k: ModuleKey, p: Progress)
    requires Pointwise(env, one)
    ensures SymbolizeModule(env, frames, k, p).Ok? <==> ModulePasses(env, one, frames, k) && p.bytes + BytesOf(env, frames, k) <= MAX_OUTPUT_BYTES
    ensures SymbolizeModule(env, frames, k, p).Ok? ==> SymbolizeModule(env, frames, k, p).value.bytes == p.bytes + BytesOf(env, frames, k)
  {
    if ArtifactFailure(env, k) == None {
      var a, members := env.artifacts[k], MembersOf(frames, k);
      var ran := env.run(a, PcsOf(frames, members));
      if ran.Ok? {
        var blocks := ran.value.blocks;
        PlaceOkIff(frames, members, a, blocks, p.results);
        BlocksAreTwoLines(one, frames, k, a, blocks);
      }
    }
  }

  lemma BlocksAreTwoLines(one: (Artifact, nat) -> Block, frames: seq<Frame>, k: ModuleKey, a: Artifact, blocks: seq<Block>)
    requires var members := MembersOf(frames, k);
             |blocks| == |members| && forall j :: 0 <= j < |members| ==> blocks[j] == one(a, frames[members[j]].pc)
    ensures (forall j :: 0 <= j < |blocks| ==> |blocks[j].lines| == 2)
            <==> forall i :: 0 <= i < |frames| && KeyOf(frames[i]) == k ==> |one(a, frames[i].pc).lines| == 2
  {
    var members := MembersOf(frames, k);
    if forall j :: 0 <= j < |blocks| ==> |blocks[j].lines| == 2 {
      forall i | 0 <= i < |frames| && KeyOf(frames[i]) == k ensures |one(a, frames[i].pc).lines| == 2 {
        MembersAll(frames, k, i);
        var j :| 0 <= j < |members| && members[j] == i;
        assert |blocks[j].lines| == 2;
      }
    }
  }

  lemma {:induction false} ModulesOkIff(env: Env, one: (Artifact, nat) -> Block, frames: seq<Frame>, keys: seq<ModuleKey>, p: Progress)
    requires Pointwise(env, one)
    ensures SymbolizeModules(env, frames, keys, p).Ok?
            <==> && (forall k :: k in keys ==> ModulePasses(env, one, frames, k))
                 && (keys == [] || p.bytes + TotalBytes(env, frames, keys) <= MAX_OUTPUT_BYTES)
    decreases |keys|
  {
    if keys != [] {
      ModuleOkIff(env, one, frames, keys[0], p);
      forall k ensures k in keys <==> k == keys[0] || k in keys[1..] { assert keys == [keys[0]] + keys[1..]; }
      var m := SymbolizeModule(env, frames, keys[0], p);
      if m.Ok? {
        ModulesOkIff(env, one, frames, keys[1..], m.value);
      }
    }
  }

  /** What symbolizing every frame alone, in order, gives. */
  ghost predicate AloneResults(env: Env, one: (Artifact, nat) -> Block, frames: seq<Frame>, rs: seq<FrameResult>) {
    |rs| == |frames| && forall i :: 0 <= i < |frames| ==> AloneResult(env, one, frames, i, rs[i])
  }

  lemma {:induction false} SomeResolvedIff(rs: seq<FrameResult>)
    ensures CountResolved(rs) > 0 <==> exists i :: 0 <= i < |rs| && rs[i].state != UNRESOLVED
  {
    if rs != [] { SomeResolvedIff(rs[..|rs| - 1]); }
  }

  /**
   * A batched run that succeeds gives every frame exactly the result it has when symbolized alone, in
   * the original order; the run is full exactly when all frames are resolved, and needs one that is.
   */
  lemma BatchedEqualsAlone(env: Env, one: (Artifact, nat) -> Block, frames: seq<Frame>)
    requires Pointwise(env, one)
    ensures var r := SymbolizeNative(env, frames);
            r.Ok? ==>
              && AloneResults(env, one, frames, r.value.frames)
              && r.value.resolved == CountResolved(r.value.frames)
              && (exists i :: 0 <= i < |frames| && r.value.frames[i].state != UNRESOLVED)
              && (r.value.status == Full <==> forall i :: 0 <= i < |frames| ==> r.value.frames[i].state == RESOLVED)
  {
    var q := SymbolizeModules(env, frames, ModulesOf(frames), NOTHING_YET);
    if q.Ok? {
      OrderedAreAlone(env, one, frames);
      SomeResolvedIff(InOrder(q.value.results, |frames|));
    }
  }

  lemma ModulesPassIff(env: Env, one: (Artifact, nat) -> Block, frames: seq<Frame>)
    requires Pointwise(env, one) && frames != []
    ensures SymbolizeModules(env, frames, ModulesOf(frames), NOTHING_YET).Ok?
            <==> && (forall i :: 0 <= i < |frames| ==> ModulePasses(env, one, frames, KeyOf(frames[i])))
                 && TotalBytes(env, frames, ModulesOf(frames)) <= MAX_OUTPUT_BYTES
  {
    var keys := ModulesOf(frames);
    ModulesOkIff(env, one, frames, keys, NOTHING_YET);
    forall i | 0 <= i < |frames| ensures KeyOf(frames[i]) in keys { ModulesListAll(frames, i); }
    ModulesListOnly(frames);
    assert KeyOf(frames[0]) in keys;
  }

  lemma ResolvedIff(env: Env, one: (Artifact, nat) -> Block, frames: seq<Frame>, rs: seq<FrameResult>)
    requires AloneResults(env, one, frames, rs)
    ensures CountResolved(rs) > 0 <==> exists i :: 0 <= i < |frames| && StateOfAlone(env, one, frames[i]) != UNRESOLVED
  {
    SomeResolvedIff(rs);
    forall i | 0 <= i < |frames| ensures rs[i].state == StateOfAlone(env, one, frames[i]) {
      assert AloneResult(env, one, frames, i, rs[i]);
    }
  }

  lemma OrderedAreAlone(env: Env, one: (Artifact, nat) -> Block, frames: seq<Frame>)
    requires Pointwise(env, one)
    requires SymbolizeModules(env, frames, ModulesOf(frames), NOTHING_YET).Ok?
    ensures var results := SymbolizeModules(env, frames, ModulesOf(frames), NOTHING_YET).value.results;
            (forall i :: 0 <= i < |frames| ==> i in results) && AloneResults(env, one, frames, InOrder(results, |frames|))
  {
    var keys := ModulesOf(frames);
    AllFilled(env, frames);
    NothingDone(env, one, frames, {});
    ModulesDone(env, one, frames, keys, NOTHING_YET, {});
    var results := SymbolizeModules(env, frames, keys, NOTHING_YET).value.results;
    forall i | 0 <= i < |frames| ensures AloneResult(env, one, frames, i, results[i]) {
      assert i in results;
    }
  }

  lemma NothingDone(env: Env, one: (Artifact, nat) -> Block, frames: seq<Frame>, keys: set<ModuleKey>)
    requires keys == {}
    ensures Done(env, one, frames, keys, NOTHING_YET.results)
  {
  }

  /** A run succeeds exactly when every module passes, the output fits, and some frame resolves. */
  lemma BatchSucceedsIff(env: Env, one: (Artifact, nat) -> Block, frames: seq<Frame>)
    requires Pointwise(env, one) && frames != []
    ensures SymbolizeNative(env, frames).Ok?
            <==> && (forall i :: 0 <= i < |frames| ==> ModulePasses(env, one, frames, KeyOf(frames[i])))
                 && TotalBytes(env, frames, ModulesOf(frames)) <= 1048576
                 && exists i :: 0 <= i < |frames| && StateOfAlone(env, one, frames[i]) != UNRESOLVED
  {
    ModulesPassIff(env, one, frames);
    var q := SymbolizeModules(env, frames, ModulesOf(frames), NOTHING_YET);
    if q.Ok? {
      OrderedAreAlone(env, one, frames);
      ResolvedIff(env, one, frames, InOrder(q.value.results, |frames|));
    }
  }

  function StateOfAlone(env: Env, one: (Artifact, nat) -> Block, f: Frame): FrameState {
    if KeyOf(f) !in env.artifacts then UNRESOLVED
    else
      var b := one(env.artifacts[KeyOf(f)], f.pc);
      if |b.lines| != 2 then UNRESOLVED else StateOf(b.lines[0], b.lines[1])
  }

  lemma {:induction false} ModulesListOnly(frames: seq<Frame>)
    ensures forall k :: k in ModulesOf(frames) ==> exists i :: 0 <= i < |frames| && KeyOf(frames[i]) == k
  {
    if frames != [] {
      var n := |frames| - 1;
      ModulesListOnly(frames[..n]);
      forall k | k in ModulesOf(frames) ensures exists i :: 0 <= i < |frames| && KeyOf(frames[i]) == k {
        if k in ModulesOf(frames[..n]) {
          var i :| 0 <= i < n && KeyOf(frames[..n][i]) == k;
          assert KeyOf(frames[i]) == k;
        } else {
          assert KeyOf(frames[n]) == k;
        }
      }
    }
  }

  // ----- resolving the artifacts first -----

  predicate Wanted(scope: Scope, frames: seq<Frame>, a: Artifact) {
    a.native && a.active && a.scope == scope && ModuleKey(a.abi, a.buildId) in ModulesOf(frames)
  }

  function Filter(scope: Scope, frames: seq<Frame>, registry: seq<Artifact>): seq<Artifact> {
    if registry == [] then []
    else
      Filter(scope, frames, registry[..|registry| - 1])
      + (if Wanted(scope, frames, registry[|registry| - 1]) then [registry[|registry| - 1]] else [])
  }

  /** resolve_native_artifacts: all modules' exact artifacts, or none. */
  function Resolve(identity: Option<Scope>, frames: seq<Frame>, registry: seq<Artifact>): seq<Artifact> {
    if identity.None? then []
    else
      var found := Filter(identity.value, frames, registry);
      if forall k :: k in ModulesOf(frames) ==> HasModule(found, k) then found else []
  }

  predicate HasModule(found: seq<Artifact>, k: ModuleKey) {
    exists a :: a in found && ModuleKey(a.abi, a.buildId) == k
  }

  /** {(module.abi, module.build_id): module for module in modules}: a later one wins. */
  function ByModule(found: seq<Artifact>): map<ModuleKey, Artifact> {
    if found == [] then map[]
    else
      var a := found[|found| - 1];
      ByModule(found[..|found| - 1])[ModuleKey(a.abi, a.buildId) := a]
  }

  lemma {:induction false} FilterHas(scope: Scope, frames: seq<Frame>, registry: seq<Artifact>, a: Artifact)
    ensures a in Filter(scope, frames, registry) <==> a in registry && Wanted(scope, frames, a)
  {
    if registry != [] {
      var n := |registry| - 1;
      FilterHas(scope, frames, registry[..n], a);
      assert registry == registry[..n] + [registry[n]];
    }
  }

  lemma {:induction false} ByModuleHas(found: seq<Artifact>, k: ModuleKey)
    ensures k in ByModule(found) <==> HasModule(found, k)
    ensures k in ByModule(found) ==> ByModule(found)[k] in found && ModuleKey(ByModule(found)[k].abi, ByModule(found)[k].buildId) == k
  {
    if found != [] {
      var n := |found| - 1;
      ByModuleHas(found[..n], k);
      assert found == found[..n] + [found[n]];
      var last := found[n];
      assert HasModule(found, k) <==> HasModule(found[..n], k) || ModuleKey(last.abi, last.buildId) == k;
    }
  }

  /** After a non-empty resolution no module's artifact is missing or mismatched. */
  lemma ResolvedNeverMissing(env: Env, frames: seq<Frame>, registry: seq<Artifact>, i: nat)
    requires i < |frames|
    requires Resolve(Some(env.scope), frames, registry) != []
    requires env.artifacts == ByModule(Resolve(Some(env.scope), frames, registry))
    ensures ArtifactFailure(env, KeyOf(frames[i])) == None || ArtifactFailure(env, KeyOf(frames[i])) == Some(BlobMissing)
  {
    var found, k := Resolve(Some(env.scope), frames, registry), KeyOf(frames[i]);
    ModulesListAll(frames, i);
    ByModuleHas(found, k);
    var a := env.artifacts[k];
    FilterHas(env.scope, frames, registry, a);
    LowerTwice(frames[i].buildId);
  }

  predicate Exact(scope: Scope, f: Frame, a: Artifact) {
    a.native && a.active && a.scope == scope && a.abi == f.abi && a.buildId == Lower(f.buildId)
  }

  /** The registry holds an exact active artifact for the frame's module. */
  predicate Served(scope: Scope, registry: seq<Artifact>, f: Frame) {
    exists a :: a in registry && Exact(scope, f, a)
  }

  lemma ServedIff(scope: Scope, frames: seq<Frame>, registry: seq<Artifact>, i: nat)
    requires i < |frames|
    ensures HasModule(Filter(scope, frames, registry), KeyOf(frames[i])) <==> Served(scope, registry, frames[i])
  {
    var found, k := Filter(scope, frames, registry), KeyOf(frames[i]);
    ModulesListAll(frames, i);
    if HasModule(found, k) {
      var a :| a in found && ModuleKey(a.abi, a.buildId) == k;
      FilterHas(scope, frames, registry, a);
      assert a in registry && Exact(scope, frames[i], a);
    }
    if Served(scope, registry, frames[i]) {
      var a :| a in registry && Exact(scope, frames[i], a);
      FilterHas(scope, frames, registry, a);
      assert a in found && ModuleKey(a.abi, a.buildId) == k;
    }
  }

  /** Resolution is all or nothing: it is non-empty only when every frame's module is served. */
  lemma ResolvesIffComplete(scope: Scope, frames: seq<Frame>, registry: seq<Artifact>)
    requires frames != []
    ensures Resolve(Some(scope), frames, registry) != [] <==> forall i :: 0 <= i < |frames| ==> Served(scope, registry, frames[i])
  {
    var found := Filter(scope, frames, registry);
    forall i | 0 <= i < |frames|
      ensures KeyOf(frames[i]) in ModulesOf(frames)
      ensures HasModule(found, KeyOf(frames[i])) <==> Served(scope, registry, frames[i])
    {
      ModulesListAll(frames, i);
      ServedIff(scope, frames, registry, i);
    }
    ModulesListOnly(frames);
    assert Served(scope, registry, frames[0]) ==> HasModule(found, KeyOf(frames[0]));
  }
}
