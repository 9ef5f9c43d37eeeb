/** What native symbolization means for output lines, modules and artifacts. */
module NativeLaws {
  import opened Prelude
  import opened NativeFrames

  // ----- two output lines -----

  predicate Digits(s: string) {
    forall i :: 0 <= i < |s| ==> '0' <= s[i] <= '9'
  }

  /** What the digits say in decimal. */
  function Number(s: string): nat
    requires Digits(s)
  {
    if s == "" then 0 else 10 * Number(s[..|s| - 1]) + (s[|s| - 1] as int - '0' as int)
  }

  lemma {:induction false} NumberIsZero(s: string)
    requires Digits(s)
    ensures Number(s) == 0 <==> forall c :: c in s ==> c == '0'
  {
    if s != "" {
      var n := |s| - 1;
      NumberIsZero(s[..n]);
      assert s == s[..n] + [s[n]];
      forall c ensures c in s <==> c in s[..n] || c == s[n] {}
      assert Number(s) == 0 <==> Number(s[..n]) == 0 && s[n] == '0';
      assert s[n] in s;
      assert Number(s) == 0 ==> forall c :: c in s ==> c == '0';
    }
  }

  /** The whole text is path:line:column. */
  ghost predicate Cut(location: string, path: string, line: string, column: string) {
    location == path + ":" + line + ":" + column && path != "" && line != "" && column != "" && Digits(line) && Digits(column)
  }

  /** The tool knew the file and the line. */
  ghost predicate Located(location: string) {
    exists path: string, line: string, column: string :: Cut(location, path, line, column) && path != "??" && Number(line) > 0
  }

  predicate Named(function_: string) {
    function_ != "" && function_ != "??"
  }

  lemma {:induction false} LastColonIs(s: string, tail: string, whole: string)
    requires whole == s + ":" + tail && ':' !in tail
    ensures LastColon(whole) == Some(|s|)
    decreases |tail|
  {
    if tail != "" {
      var n := |tail| - 1;
      assert whole[|whole| - 1] == tail[n] && tail[n] in tail;
      assert whole[..|whole| - 1] == s + ":" + tail[..n];
      LastColonIs(s, tail[..n], whole[..|whole| - 1]);
    }
  }

  lemma {:induction false} ColonAt(s: string)
    ensures LastColon(s).Some? ==> s[LastColon(s).value] == ':'
  {
    if s != "" && s[|s| - 1] != ':' { ColonAt(s[..|s| - 1]); }
  }

  lemma CutColons(location: string, path: string, line: string, column: string)
    requires Cut(location, path, line, column)
    ensures var j := |path| + 1 + |line|;
            LastColon(location) == Some(j) && LastColon(location[..j]) == Some(|path|)
  {
    LastColonIs(path + ":" + line, column, location);
    LastColonIs(path, line, location[..|path| + 1 + |line|]);
  }

  lemma CutNamesSource(location: string, path: string, line: string, column: string)
    requires Cut(location, path, line, column)
    ensures NamesSource(location) <==> path != "??" && Number(line) > 0
  {
    var j, k := |path| + 1 + |line|, |path|;
    CutColons(location, path, line, column);
    assert location[j + 1..] == column && location[k + 1..j] == line && location[..k] == path;
    NumberIsZero(line);
  }

  lemma SourceIsCut(location: string)
    requires NamesSource(location)
    ensures Located(location)
  {
    var j := LastColon(location).value;
    var k := LastColon(location[..j]).value;
    ColonAt(location);
    ColonAt(location[..j]);
    var path, line, column := location[..k], location[k + 1..j], location[j + 1..];
    assert location == path + ":" + line + ":" + column;
    assert Cut(location, path, line, column);
    NumberIsZero(line);
  }

  /** A frame is resolved with a function, a known file and a line; with a function alone it is not. */
  lemma StatesAre(function_: string, location: string)
    ensures StateOf(function_, location) == UNRESOLVED <==> !Named(function_)
    ensures StateOf(function_, location) == RESOLVED <==> Named(function_) && Located(location)
    ensures StateOf(function_, location) == FUNCTION_ONLY <==> Named(function_) && !Located(location)
  {
    if NamesSource(location) { SourceIsCut(location); }
    if Located(location) {
      var path, line, column :| Cut(location, path, line, column) && path != "??" && Number(line) > 0;
      CutNamesSource(location, path, line, column);
    }
  }

  // ----- modules -----

  /** Capital letters become the small letters of the same place in the alphabet. */
  lemma LowerIs(s: string, i: nat)
    requires i < |s|
    ensures |Lower(s)| == |s|
    ensures 'A' <= s[i] <= 'Z' ==> 'a' <= Lower(s)[i] <= 'z' && Lower(s)[i] as int - 'a' as int == s[i] as int - 'A' as int
    ensures !('A' <= s[i] <= 'Z') ==> Lower(s)[i] == s[i]
  {
  }

  /** Every module is listed once, and a module met earlier is listed earlier. */
  lemma {:induction false} ModulesAreDistinct(frames: seq<Frame>, a: nat, b: nat)
    requires a < b < |ModulesOf(frames)|
    ensures ModulesOf(frames)[a] != ModulesOf(frames)[b]
    ensures exists i :: 0 <= i < |frames| && KeyOf(frames[i]) == ModulesOf(frames)[a]
              && forall j :: 0 <= j <= i ==> KeyOf(frames[j]) != ModulesOf(frames)[b]
  {
    var n := |frames| - 1;
    var before := ModulesOf(frames[..n]);
    if b < |before| {
      ModulesAreDistinct(frames[..n], a, b);
      var i :| 0 <= i < n && KeyOf(frames[..n][i]) == before[a] && forall j :: 0 <= j <= i ==> KeyOf(frames[..n][j]) != before[b];
      assert KeyOf(frames[i]) == before[a];
      forall j | 0 <= j <= i ensures KeyOf(frames[j]) != before[b] { assert frames[j] == frames[..n][j]; }
    } else {
      ModulesListOnly(frames[..n]);
      assert before[a] in before;
      var i :| 0 <= i < n && KeyOf(frames[..n][i]) == before[a];
      assert KeyOf(frames[i]) == before[a];
      forall j | 0 <= j <= i ensures KeyOf(frames[j]) != KeyOf(frames[n]) {
        ModulesListAll(frames[..n], j);
        assert frames[j] == frames[..n][j];
      }
    }
  }

  // ----- artifacts -----

  /** The artifact was uploaded for this very release and module, and its file is there. */
  ghost predicate Serves(env: Env, a: Artifact, f: Frame) {
    && a.scope.tenant == env.scope.tenant && a.scope.app == env.scope.app
    && a.scope.versionCode == env.scope.versionCode && a.scope.build == env.scope.build && a.scope.variant == env.scope.variant
    && a.abi == f.abi && Lower(a.buildId) == Lower(f.buildId)
    && env.present(a)
  }

  ghost predicate ServedBy(env: Env, f: Frame, a: Artifact) {
    ModuleKey(f.abi, Lower(f.buildId)) in env.artifacts && env.artifacts[ModuleKey(f.abi, Lower(f.buildId))] == a && Serves(env, a, f)
  }

  lemma ArtifactIsUsed(env: Env, f: Frame)
    ensures ArtifactFailure(env, KeyOf(f)) == None <==> exists a :: ServedBy(env, f, a)
  {
    var k := KeyOf(f);
    if ArtifactFailure(env, k) == None {
      assert ServedBy(env, f, env.artifacts[k]);
    }
  }

  /** The artifact is looked for first, then compared, then read. */
  lemma ArtifactFailures(env: Env, f: Frame)
    ensures var k := ModuleKey(f.abi, Lower(f.buildId));
            && (ArtifactFailure(env, k) == Some(ArtifactMissing) <==> k !in env.artifacts)
            && (ArtifactFailure(env, k) == Some(BlobMissing) ==> k in env.artifacts && !env.present(env.artifacts[k]))
            && (ArtifactFailure(env, k) == Some(ArtifactMismatch) ==>
                  k in env.artifacts && !Serves(env.(present := _ => true), env.artifacts[k], f))
  {
  }

  // ----- the whole run -----

  /** One frame's entry: its own module's artifact and its own two lines. */
  ghost predicate Reports(env: Env, one: (Artifact, nat) -> Block, f: Frame, i: nat, r: FrameResult) {
    && r.index == i && r.frame == f && r.buildId == Lower(f.buildId)
    && ServedBy(env, f, r.artifact)
    && one(r.artifact, f.pc).lines == [r.function_, r.location]
    && (r.state == UNRESOLVED <==> !Named(r.function_))
    && (r.state == RESOLVED <==> Named(r.function_) && Located(r.location))
  }

  lemma AloneReports(env: Env, one: (Artifact, nat) -> Block, frames: seq<Frame>, i: nat, r: FrameResult)
    requires i < |frames| && AloneResult(env, one, frames, i, r)
    ensures Reports(env, one, frames[i], i, r)
  {
    var b := one(r.artifact, frames[i].pc);
    assert b.lines == [b.lines[0], b.lines[1]];
    StatesAre(r.function_, r.location);
  }

  lemma {:induction false} ResolvedAre(rs: seq<FrameResult>)
    ensures CountResolved(rs) == |set i | 0 <= i < |rs| && rs[i].state != UNRESOLVED|
  {
    if rs != [] {
      var n := |rs| - 1;
      ResolvedAre(rs[..n]);
      var before, after := set i | 0 <= i < n && rs[..n][i].state != UNRESOLVED, set i | 0 <= i < |rs| && rs[i].state != UNRESOLVED;
      assert after == if rs[n].state != UNRESOLVED then before + {n} else before;
    }
  }

  /** A successful run reports every frame in order, counts the named ones, and is full when all have a source line. */
  lemma RunReports(env: Env, one: (Artifact, nat) -> Block, frames: seq<Frame>)
    requires Pointwise(env, one) && SymbolizeNative(env, frames).Ok?
    ensures var r := SymbolizeNative(env, frames).value;
            && |r.frames| == |frames|
            && (forall i :: 0 <= i < |frames| ==> Reports(env, one, frames[i], i, r.frames[i]))
            && r.resolved == |set i | 0 <= i < |r.frames| && r.frames[i].state != UNRESOLVED|
            && 0 < r.resolved
            && (r.status == Full <==> forall i :: 0 <= i < |frames| ==> Named(r.frames[i].function_) && Located(r.frames[i].location))
  {
    var r := SymbolizeNative(env, frames).value;
    BatchedEqualsAlone(env, one, frames);
    SomeResolvedIff(r.frames);
    ResolvedAre(r.frames);
    forall i | 0 <= i < |frames| ensures Reports(env, one, frames[i], i, r.frames[i]) {
      AloneReports(env, one, frames, i, r.frames[i]);
    }
  }

  /** One frame's own reason to fail the run. */
  ghost predicate Fails(env: Env, one: (Artifact, nat) -> Block, f: Frame, failure: Failure) {
    var k := ModuleKey(f.abi, Lower(f.buildId));
    if k !in env.artifacts then failure == ArtifactMissing
    else
      var a := env.artifacts[k];
      || (failure == ArtifactMismatch && !Serves(env.(present := _ => true), a, f))
      || (failure == BlobMissing && !env.present(a))
      || (exists pcs :: env.run(a, pcs) == Err(failure))
      || (failure == InvalidOutput && |one(a, f.pc).lines| != 2)
  }

  lemma ModuleFails(env: Env, one: (Artifact, nat) -> Block, frames: seq<Frame>, i: nat, p: Progress)
    requires Pointwise(env, one) && i < |frames| && SymbolizeModule(env, frames, KeyOf(frames[i]), p).Err?
    ensures var failure := SymbolizeModule(env, frames, KeyOf(frames[i]), p).error;
            || (failure == OutputTooLarge && p.bytes + BytesOf(env, frames, KeyOf(frames[i])) > 1048576)
            || exists j :: 0 <= j < |frames| && Fails(env, one, frames[j], failure)
  {
    var k := KeyOf(frames[i]);
    if ArtifactFailure(env, k) != None {
      ArtifactFailures(env, frames[i]);
      assert Fails(env, one, frames[i], ArtifactFailure(env, k).value);
    } else {
      var a, members := env.artifacts[k], MembersOf(frames, k);
      var ran := env.run(a, PcsOf(frames, members));
      if ran.Err? {
        assert Fails(env, one, frames[i], ran.error);
      } else if p.bytes + ran.value.bytes <= MAX_OUTPUT_BYTES {
        var blocks := ran.value.blocks;
        PlaceOkIff(frames, members, a, blocks, p.results);
        PlaceErrors(frames, members, a, blocks, p.results);
        var j :| 0 <= j < |blocks| && |blocks[j].lines| != 2;
        assert Fails(env, one, frames[members[j]], InvalidOutput);
      }
    }
  }

  lemma {:induction false} PlaceErrors(frames: seq<Frame>, members: seq<nat>, a: Artifact, blocks: seq<Block>, results: Results)
    requires |blocks| == |members| && forall j :: 0 <= j < |members| ==> members[j] < |frames|
    ensures var r := Place(frames, members, a, blocks, results); r.Err? ==> r.error == InvalidOutput
  {
    if members != [] && |blocks[0].lines| == 2 {
      var i := members[0];
      PlaceErrors(frames, members[1..], a, blocks[1..], results[i := ResultOf(i, frames[i], a, blocks[0])]);
    }
  }

  lemma {:induction false} ModulesFail(env: Env, one: (Artifact, nat) -> Block, frames: seq<Frame>, keys: seq<ModuleKey>, p: Progress)
    requires Pointwise(env, one) && SymbolizeModules(env, frames, keys, p).Err?
    requires forall k :: k in keys ==> exists i :: 0 <= i < |frames| && KeyOf(frames[i]) == k
    ensures var failure := SymbolizeModules(env, frames, keys, p).error;
            || (failure == OutputTooLarge && p.bytes + TotalBytes(env, frames, keys) > 1048576)
            || exists j :: 0 <= j < |frames| && Fails(env, one, frames[j], failure)
    decreases |keys|
  {
    var m := SymbolizeModule(env, frames, keys[0], p);
    assert keys[0] in keys;
    var i :| 0 <= i < |frames| && KeyOf(frames[i]) == keys[0];
    if m.Err? {
      ModuleFails(env, one, frames, i, p);
    } else {
      ModuleOkIff(env, one, frames, keys[0], p);
      forall k | k in keys[1..] ensures exists i :: 0 <= i < |frames| && KeyOf(frames[i]) == k { assert k in keys; }
      ModulesFail(env, one, frames, keys[1..], m.value);
    }
  }

  /**
   * A failed run names a reason that holds: of some frame's module, of the combined output, or that no
   * frame has a function name.
   */
  lemma RunFails(env: Env, one: (Artifact, nat) -> Block, frames: seq<Frame>)
    requires Pointwise(env, one) && SymbolizeNative(env, frames).Err?
    ensures var failure := SymbolizeNative(env, frames).error;
            || (failure == OutputTooLarge && TotalBytes(env, frames, ModulesOf(frames)) > 1048576)
            || (exists j :: 0 <= j < |frames| && Fails(env, one, frames[j], failure))
            || (failure == Unresolved && forall i :: 0 <= i < |frames| ==> Anonymous(env, one, frames[i]))
  {
    ModulesListOnly(frames);
    var q := SymbolizeModules(env, frames, ModulesOf(frames), NOTHING_YET);
    if q.Err? {
      ModulesFail(env, one, frames, ModulesOf(frames), NOTHING_YET);
    } else {
      OrderedAreAlone(env, one, frames);
      var rs := InOrder(q.value.results, |frames|);
      SomeResolvedIff(rs);
      forall i | 0 <= i < |frames| ensures Anonymous(env, one, frames[i]) {
        assert rs[i].state == UNRESOLVED;
        AloneReports(env, one, frames, i, rs[i]);
        assert one(rs[i].artifact, frames[i].pc).lines[0] == rs[i].function_;
      }
    }
  }

  /** The tool gave the frame no function name. */
  ghost predicate Anonymous(env: Env, one: (Artifact, nat) -> Block, f: Frame) {
    exists a :: ServedBy(env, f, a) && |one(a, f.pc).lines| == 2 && !Named(one(a, f.pc).lines[0])
  }
}
