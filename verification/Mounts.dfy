/** What the catalog renders for llama.cpp: the model paths of models.ini, the mounts of the Compose
    override and the mounts of the Kubernetes values. */
module Mounts {
  import opened Text
  import opened Paths

  datatype Kind = Managed | HostPath | DockerVolume | ContainerPath | Pvc | HostPathVolume | NoArtifact

  // Absent texts are "". An absent artifact has kind NoArtifact.
  datatype Artifact = Artifact(kind: Kind, filename: string, path: string, subPath: string, volume: string)

  datatype BackendKind = LlamaCpp | OtherBackend

  datatype Backend = Backend(kind: BackendKind, enabled: bool)

  datatype Model = Model(id: string, enabled: bool, backend: string, upstream: string, artifact: Artifact)

  // The models in the order of the document.
  datatype Catalog = Catalog(backends: map<string, Backend>, models: seq<Model>)

  // ---------------------------------------------------------------- validation

  predicate IsIdChar(c: char) {
    'a' <= c <= 'z' || '0' <= c <= '9' || c == '.' || c == '_' || c == '-'
  }

  predicate IsId(s: string) {
    1 <= |s| <= 64 && s[0] != '.' && s[0] != '_' && s[0] != '-' && forall i :: 0 <= i < |s| ==> IsIdChar(s[i])
  }

  predicate ValidModel(c: Catalog, m: Model) {
    && IsId(m.id) && m.backend in c.backends
    && (m.artifact.kind.HostPath? || m.artifact.kind.ContainerPath? || m.artifact.kind.HostPathVolume? ==> m.artifact.path != "")
    && (m.artifact.kind.DockerVolume? ==> m.artifact.volume != "")
    && (c.backends[m.backend].kind.LlamaCpp? ==> !m.artifact.kind.NoArtifact?)
  }

  ghost predicate Valid(c: Catalog) {
    && (forall i :: 0 <= i < |c.models| ==> ValidModel(c, c.models[i]))
    && (forall i, j :: 0 <= i < j < |c.models| ==> c.models[i].id != c.models[j].id)
  }

  // ---------------------------------------------------------------- paths

  function TargetDir(id: string): string {
    "/models/external/" + id
  }

  function Filename(m: Model): string {
    if m.artifact.filename != "" then NameOf(m.artifact.filename)
    else if m.artifact.path != "" && IsGguf(NameOf(m.artifact.path)) then NameOf(m.artifact.path)
    else m.id + ".gguf"
  }

  // The path inside a volume.
  function Inside(m: Model): string {
    if m.artifact.subPath != "" then m.artifact.subPath else Filename(m)
  }

  function Resolved(m: Model, modelsDir: Path): Option<Path> {
    match m.artifact.kind
    case Managed => Some(Joined(Joined(modelsDir, "managed"), Filename(m)))
    case HostPath => Some(PathOf(TargetDir(m.id) + "/" + Filename(m)))
    case DockerVolume => Some(Joined(PathOf(TargetDir(m.id)), Inside(m)))
    case ContainerPath => Some(PathOf(m.artifact.path))
    case Pvc => Some(Joined(PathOf(TargetDir(m.id)), Inside(m)))
    case HostPathVolume => Some(Joined(PathOf(TargetDir(m.id)), Inside(m)))
    case NoArtifact => None
  }

  predicate Runs(c: Catalog, m: Model) {
    m.backend in c.backends && c.backends[m.backend].kind.LlamaCpp?
  }

  // ---------------------------------------------------------------- models.ini

  // One section: its name and the model path.
  datatype Section = Section(name: string, model: Path)

  predicate InIni(c: Catalog, m: Model) {
    m.enabled && Runs(c, m) && !m.artifact.kind.NoArtifact?
  }

  function SectionOf(m: Model, modelsDir: Path): Section
    requires !m.artifact.kind.NoArtifact?
  {
    Section(if m.upstream != "" then m.upstream else m.id, Resolved(m, modelsDir).value)
  }

  function Sections(c: Catalog, models: seq<Model>, modelsDir: Path): seq<Section> {
    if models == [] then []
    else
      var last := models[|models| - 1];
      Sections(c, models[..|models| - 1], modelsDir) + if InIni(c, last) then [SectionOf(last, modelsDir)] else []
  }

  method RenderModelsIni(c: Catalog, modelsDir: Path) returns (sections: seq<Section>)
    requires Valid(c)
    ensures sections == Sections(c, c.models, modelsDir)
  {
    sections := [];
    for i := 0 to |c.models|
      invariant sections == Sections(c, c.models[..i], modelsDir)
    {
      var m := c.models[i];
      assert ValidModel(c, m) && c.models[..i + 1][..i] == c.models[..i];
      if !m.enabled { continue; }
      if c.backends[m.backend].kind != LlamaCpp { continue; }
      var path := Resolved(m, modelsDir);
      if path == None { continue; }
      sections := sections + [Section(if m.upstream != "" then m.upstream else m.id, path.value)];
    }
    assert c.models[..|c.models|] == c.models;
  }

  // ---------------------------------------------------------------- the Compose override

  datatype Mount = Bind(source: string, target: string) | Volume(source: string, target: string)

  predicate Mounted(c: Catalog, m: Model) {
    m.enabled && Runs(c, m) && c.backends[m.backend].enabled && (m.artifact.kind.HostPath? || m.artifact.kind.DockerVolume?)
  }

  function Dashed(s: string): string {
    seq(|s|, i requires 0 <= i < |s| => if s[i] == '.' then '-' else s[i])
  }

  function MountOf(m: Model): Mount {
    if m.artifact.kind.HostPath? then
      Bind(m.artifact.path, if IsGguf(NameOf(m.artifact.path)) then TargetDir(m.id) + "/" + Filename(m) else TargetDir(m.id))
    else Volume(Dashed("external-" + m.id), TargetDir(m.id))
  }

  function MountsOf(c: Catalog, models: seq<Model>): seq<Mount> {
    if models == [] then []
    else
      var last := models[|models| - 1];
      MountsOf(c, models[..|models| - 1]) + if Mounted(c, last) then [MountOf(last)] else []
  }

  predicate NeedsLlama(c: Catalog, m: Model) {
    m.enabled && Runs(c, m) && c.backends[m.backend].enabled
  }

  function AliasOf(m: Model): string {
    Dashed("external-" + m.id)
  }

  predicate HasAlias(c: Catalog, m: Model) {
    Mounted(c, m) && m.artifact.kind.DockerVolume?
  }

  // The declared volumes by alias; the last model of an alias names it.
  function VolumesOf(c: Catalog, models: seq<Model>): map<string, string> {
    if models == [] then map[]
    else
      var last := models[|models| - 1];
      var before := VolumesOf(c, models[..|models| - 1]);
      if HasAlias(c, last) then before[AliasOf(last) := last.artifact.volume] else before
  }

  predicate AnyNeedsLlama(c: Catalog, models: seq<Model>) {
    exists i :: 0 <= i < |models| && NeedsLlama(c, models[i])
  }

  lemma OneModelMore(c: Catalog, models: seq<Model>, i: nat)
    requires i < |models|
    ensures MountsOf(c, models[..i + 1]) == MountsOf(c, models[..i]) + if Mounted(c, models[i]) then [MountOf(models[i])] else []
    ensures VolumesOf(c, models[..i + 1]) ==
            if HasAlias(c, models[i]) then VolumesOf(c, models[..i])[AliasOf(models[i]) := models[i].artifact.volume]
            else VolumesOf(c, models[..i])
    ensures AnyNeedsLlama(c, models[..i + 1]) <==> AnyNeedsLlama(c, models[..i]) || NeedsLlama(c, models[i])
  {
    var after := models[..i + 1];
    assert after[..i] == models[..i] && after[i] == models[i];
    if j :| 0 <= j < i && NeedsLlama(c, models[..i][j]) { assert NeedsLlama(c, after[j]); }
    if j :| 0 <= j < i + 1 && NeedsLlama(c, after[j]) { assert j < i ==> NeedsLlama(c, models[..i][j]); }
  }

  ghost predicate DeclaredBy(c: Catalog, models: seq<Model>, alias: string, volume: string) {
    exists i :: 0 <= i < |models| && Names(c, models[i], alias, volume)
  }

  // Every volume mount's alias is declared, and every declaration is that of a mounted model.
  lemma {:induction false} AliasesDeclared(c: Catalog, models: seq<Model>)
    ensures forall j :: 0 <= j < |MountsOf(c, models)| && MountsOf(c, models)[j].Volume? ==>
      MountsOf(c, models)[j].source in VolumesOf(c, models)
    ensures forall alias :: alias in VolumesOf(c, models) ==> DeclaredBy(c, models, alias, VolumesOf(c, models)[alias])
    decreases |models|
  {
    if models != [] {
      var last := models[|models| - 1];
      AliasesDeclared(c, models[..|models| - 1]);
      forall alias | alias in VolumesOf(c, models)
        ensures DeclaredBy(c, models, alias, VolumesOf(c, models)[alias])
      {
        var volume := VolumesOf(c, models)[alias];
        if HasAlias(c, last) && alias == AliasOf(last) {
          assert Names(c, last, alias, volume);
        } else {
          var front := models[..|models| - 1];
          assert alias in VolumesOf(c, front) && VolumesOf(c, front)[alias] == volume;
          assert DeclaredBy(c, front, alias, VolumesOf(c, front)[alias]);
          var i :| 0 <= i < |models| - 1 && Names(c, models[..|models| - 1][i], alias, volume);
          assert Names(c, models[i], alias, volume);
        }
      }
    }
  }

  method RenderComposeOverride(c: Catalog) returns (mounts: seq<Mount>, volumes: map<string, string>, required: bool)
    requires Valid(c)
    ensures mounts == MountsOf(c, c.models) && volumes == VolumesOf(c, c.models)
    ensures required <==> AnyNeedsLlama(c, c.models)
    ensures forall j :: 0 <= j < |mounts| && mounts[j].Volume? ==> mounts[j].source in volumes
    ensures forall alias :: alias in volumes ==> DeclaredBy(c, c.models, alias, volumes[alias])
  {
    mounts, volumes, required := [], map[], false;
    for i := 0 to |c.models|
      invariant mounts == MountsOf(c, c.models[..i]) && volumes == VolumesOf(c, c.models[..i])
      invariant required <==> AnyNeedsLlama(c, c.models[..i])
    {
      var m := c.models[i];
      assert ValidModel(c, m);
      OneModelMore(c, c.models, i);
      if !m.enabled { continue; }
      var backend := c.backends[m.backend];
      if !backend.enabled || backend.kind != LlamaCpp { continue; }
      required := true;
      var dir := "/models/external/" + m.id;
      if m.artifact.kind == HostPath {
        var target := dir;
        if IsGguf(NameOf(m.artifact.path)) { target := dir + "/" + Filename(m); }
        mounts := mounts + [Bind(m.artifact.path, target)];
      } else if m.artifact.kind == DockerVolume {
        var alias := Dashed("external-" + m.id);
        volumes := volumes[alias := m.artifact.volume];
        mounts := mounts + [Volume(alias, dir)];
      }
    }
    assert c.models[..|c.models|] == c.models;
    AliasesDeclared(c, c.models);
  }

  // A mounted Docker volume's model under its alias.
  predicate Names(c: Catalog, m: Model, alias: string, volume: string) {
    HasAlias(c, m) && alias == AliasOf(m) && volume == m.artifact.volume
  }

  // ---------------------------------------------------------------- the Kubernetes values

  datatype VolumeMount = VolumeMount(name: string, mountPath: string)

  predicate Claimed(c: Catalog, m: Model) {
    Runs(c, m) && (m.artifact.kind.Pvc? || m.artifact.kind.HostPathVolume?)
  }

  function VolumeMountOf(m: Model): VolumeMount {
    VolumeMount(Dashed("model-" + m.id), TargetDir(m.id))
  }

  const K8S_MODELS := Path(OneSlash, ["models"])

  // containerPath by model id.
  function ContainerPaths(c: Catalog, models: seq<Model>): map<string, Option<Path>> {
    if models == [] then map[]
    else
      var last := models[|models| - 1];
      var before := ContainerPaths(c, models[..|models| - 1]);
      if Runs(c, last) then before[last.id := Resolved(last, K8S_MODELS)] else before
  }

  function VolumeMountsOf(c: Catalog, models: seq<Model>): seq<VolumeMount> {
    if models == [] then []
    else
      var last := models[|models| - 1];
      VolumeMountsOf(c, models[..|models| - 1]) + if Claimed(c, last) then [VolumeMountOf(last)] else []
  }

  method CatalogToK8sValues(c: Catalog) returns (paths: map<string, Option<Path>>, mounts: seq<VolumeMount>)
    requires Valid(c)
    ensures paths == ContainerPaths(c, c.models) && mounts == VolumeMountsOf(c, c.models)
  {
    paths, mounts := map[], [];
    for i := 0 to |c.models|
      invariant paths == ContainerPaths(c, c.models[..i]) && mounts == VolumeMountsOf(c, c.models[..i])
    {
      var m := c.models[i];
      assert ValidModel(c, m) && c.models[..i + 1][..i] == c.models[..i];
      if c.backends[m.backend].kind != LlamaCpp { continue; }
      paths := paths[m.id := Resolved(m, K8S_MODELS)];
      if m.artifact.kind == Pvc || m.artifact.kind == HostPathVolume {
        mounts := mounts + [VolumeMount(Dashed("model-" + m.id), "/models/external/" + m.id)];
      }
    }
    assert c.models[..|c.models|] == c.models;
  }

  // ---------------------------------------------------------------- mounts agree with paths

  predicate IsPart(s: string) {
    '/' !in s && s != "" && s != "."
  }

  lemma ThreeParts(s: string, a: string, b: string, id: string)
    requires IsPart(a) && IsPart(b) && IsPart(id) && s == "/" + (a + "/" + (b + "/" + id))
    ensures PathOf(s) == Path(OneSlash, [a, b, id])
  {
    AbsoluteParts(a + "/" + (b + "/" + id));
    FirstPart(a, b + "/" + id);
    FirstPart(b, id);
    OnePart(id);
    assert [a] + ([b] + [id]) == [a, b, id];
    assert s[0] == '/' && s[1] == a[0] && a[0] in a;
  }

  lemma DirShape(id: string)
    ensures TargetDir(id) == "/" + ("models" + "/" + ("external" + "/" + id))
    ensures IsPart("models") && IsPart("external")
  {
  }

  lemma IdIsPart(id: string)
    requires IsId(id)
    ensures IsPart(id)
  {
  }

  lemma DirPath(id: string)
    requires IsId(id)
    ensures PathOf(TargetDir(id)) == Path(OneSlash, ["models", "external", id])
  {
    DirShape(id);
    IdIsPart(id);
    ThreeParts(TargetDir(id), "models", "external", id);
  }

  lemma FilenameIsOnePart(m: Model)
    requires IsId(m.id)
    ensures '/' !in Filename(m) && Filename(m) != "." && Parts(Filename(m)) == (if Filename(m) == "" then [] else [Filename(m)])
  {
    if m.artifact.filename != "" { NameIsOnePart(m.artifact.filename); }
    if m.artifact.path != "" { NameIsOnePart(m.artifact.path); }
    assert '/' !in m.id && '/' !in ".gguf";
    OnePart(Filename(m));
  }

  /** When the path of a mounted model lies in its mount: a path inside a volume goes down from the
      volume's directory, or names that directory itself in full; a file name is not a double dot. */
  predicate Fits(m: Model) {
    if m.artifact.kind.HostPath? then Filename(m) != ".."
    else
      var inside := PathOf(Inside(m));
      && ".." !in inside.parts
      && (inside.root.NoRoot? || (inside.root.OneSlash? && ["models", "external", m.id] <= inside.parts))
  }

  predicate HasVolume(m: Model) {
    m.artifact.kind.DockerVolume? || m.artifact.kind.Pvc? || m.artifact.kind.HostPathVolume?
  }

  /** A volume's directory holds the model's path exactly when the path fits: the one fact behind both
      the Compose and the Kubernetes mounts. */
  lemma VolumeHoldsExactly(m: Model, modelsDir: Path)
    requires IsId(m.id) && HasVolume(m)
    ensures Resolved(m, modelsDir).Some?
    ensures Ancestor(PathOf(TargetDir(m.id)), Resolved(m, modelsDir).value) <==> Fits(m)
  {
    DirPath(m.id);
    var dir := ["models", "external", m.id];
    assert ".." !in dir;
    assert forall parts: seq<string> :: dir <= dir + parts;
  }

  // The path of a file in the model's directory.
  lemma FilePath(m: Model)
    requires IsId(m.id)
    ensures PathOf(TargetDir(m.id) + "/" + Filename(m))
            == Path(OneSlash, ["models", "external", m.id] + if Filename(m) == "" then [] else [Filename(m)])
  {
    DirPath(m.id);
    FilenameIsOnePart(m);
    DirShape(m.id);
    PathConcat(TargetDir(m.id), Filename(m));
  }

  lemma PathConcat(dir: string, name: string)
    requires |dir| > 2
    ensures PathOf(dir + "/" + name) == Path(RootOf(dir), Parts(dir) + Parts(name))
  {
    PartsConcat(dir, name);
    RootStays(dir, name);
  }

  // More text behind it does not change the root.
  lemma RootStays(dir: string, name: string)
    requires |dir| > 2
    ensures RootOf(dir + "/" + name) == RootOf(dir)
  {
    var s := dir + "/" + name;
    assert s[0] == dir[0] && s[1] == dir[1] && s[2] == dir[2];
  }

  lemma BindTarget(m: Model)
    requires IsId(m.id) && m.artifact.kind.HostPath?
    ensures PathOf(MountOf(m).target) == Path(OneSlash, ["models", "external", m.id])
            || PathOf(MountOf(m).target) == PathOf(TargetDir(m.id) + "/" + Filename(m))
    ensures PathOf(TargetDir(m.id) + "/" + Filename(m))
            == Path(OneSlash, ["models", "external", m.id] + if Filename(m) == "" then [] else [Filename(m)])
  {
    DirPath(m.id);
    FilePath(m);
  }

  /** The mount of a model is its path, or a directory of it, exactly when the path fits. */
  lemma MountHoldsExactly(m: Model, modelsDir: Path)
    requires IsId(m.id) && (m.artifact.kind.HostPath? || m.artifact.kind.DockerVolume?)
    ensures Resolved(m, modelsDir).Some?
    ensures Ancestor(PathOf(MountOf(m).target), Resolved(m, modelsDir).value) <==> Fits(m)
  {
    if m.artifact.kind.HostPath? {
      BindTarget(m);
      assert ".." !in ["models", "external", m.id];
      if Filename(m) == ".." { assert ".." in ["models", "external", m.id] + [Filename(m)]; }
    } else {
      VolumeHoldsExactly(m, modelsDir);
    }
  }

  // Every target starts with the directory of its model.
  lemma TargetStarts(m: Model)
    requires IsId(m.id) && (m.artifact.kind.HostPath? || m.artifact.kind.DockerVolume?)
    ensures PathOf(MountOf(m).target).root == OneSlash && ["models", "external", m.id] <= PathOf(MountOf(m).target).parts
  {
    DirPath(m.id);
    if m.artifact.kind.HostPath? { BindTarget(m); }
  }

  lemma ThirdPartDiffers(a: seq<string>, b: seq<string>, i: string, j: string)
    requires i != j && ["models", "external", i] <= a && ["models", "external", j] <= b
    ensures !(a <= b) && !(b <= a)
  {
    assert a[2] == i && b[2] == j;
  }

  lemma TargetsDisjoint(m: Model, n: Model)
    requires IsId(m.id) && IsId(n.id) && m.id != n.id
    requires m.artifact.kind.HostPath? || m.artifact.kind.DockerVolume?
    requires n.artifact.kind.HostPath? || n.artifact.kind.DockerVolume?
    ensures Disjoint(PathOf(MountOf(m).target), PathOf(MountOf(n).target))
  {
    TargetStarts(m);
    TargetStarts(n);
    ThirdPartDiffers(PathOf(MountOf(m).target).parts, PathOf(MountOf(n).target).parts, m.id, n.id);
  }

  // ---------------------------------------------------------------- whole catalogs

  // The place of the mount of model i among the mounts.
  function Place(c: Catalog, i: nat): nat
    requires i <= |c.models|
  {
    |MountsOf(c, c.models[..i])|
  }

  lemma {:induction false} PlaceHoldsMount(c: Catalog, i: nat, k: nat)
    requires i < k <= |c.models| && Mounted(c, c.models[i])
    ensures Place(c, i) < |MountsOf(c, c.models[..k])| && MountsOf(c, c.models[..k])[Place(c, i)] == MountOf(c.models[i])
    decreases k
  {
    assert c.models[..k][..k - 1] == c.models[..k - 1];
    if i < k - 1 { PlaceHoldsMount(c, i, k - 1); }
  }

  lemma {:induction false} MountHasModel(c: Catalog, k: nat, j: nat)
    requires k <= |c.models| && j < |MountsOf(c, c.models[..k])|
    ensures exists i :: 0 <= i < k && Mounted(c, c.models[i]) && Place(c, i) == j
    decreases k
  {
    assert c.models[..k][..k - 1] == c.models[..k - 1];
    if j < |MountsOf(c, c.models[..k - 1])| { MountHasModel(c, k - 1, j); }
    else { assert Mounted(c, c.models[k - 1]) && Place(c, k - 1) == j; }
  }

  /** Mounts agree with presets: in a valid catalog each model to be mounted whose path fits has exactly
      one mount that holds its path, the one made for it; no other mount even overlaps that mount. */
  lemma MountsAgree(c: Catalog, i: nat, j: nat, modelsDir: Path)
    requires Valid(c) && i < |c.models| && Mounted(c, c.models[i]) && Fits(c.models[i])
    requires j < |MountsOf(c, c.models)|
    ensures Resolved(c.models[i], modelsDir).Some? && Place(c, i) < |MountsOf(c, c.models)|
    ensures Ancestor(PathOf(MountsOf(c, c.models)[j].target), Resolved(c.models[i], modelsDir).value) <==> j == Place(c, i)
    ensures j != Place(c, i) ==>
      Disjoint(PathOf(MountsOf(c, c.models)[j].target), PathOf(MountsOf(c, c.models)[Place(c, i)].target))
  {
    var m := c.models[i];
    assert c.models[..|c.models|] == c.models;
    PlaceHoldsMount(c, i, |c.models|);
    MountHasModel(c, |c.models|, j);
    var n :| 0 <= n < |c.models| && Mounted(c, c.models[n]) && Place(c, n) == j;
    PlaceHoldsMount(c, n, |c.models|);
    MountHoldsExactly(m, modelsDir);
    if n != i {
      TargetsDisjoint(c.models[n], m);
      OtherMountMisses(c.models[n], m, modelsDir);
    }
  }

  // The mount of another model does not hold this one's path.
  lemma OtherMountMisses(n: Model, m: Model, modelsDir: Path)
    requires IsId(m.id) && IsId(n.id) && m.id != n.id && Fits(m)
    requires m.artifact.kind.HostPath? || m.artifact.kind.DockerVolume?
    requires n.artifact.kind.HostPath? || n.artifact.kind.DockerVolume?
    ensures Resolved(m, modelsDir).Some? && !Ancestor(PathOf(MountOf(n).target), Resolved(m, modelsDir).value)
  {
    TargetStarts(m);
    TargetStarts(n);
    MountHoldsExactly(m, modelsDir);
    var path := Resolved(m, modelsDir).value;
    assert ["models", "external", m.id] <= path.parts;
    ThirdPartDiffers(PathOf(MountOf(n).target).parts, path.parts, n.id, m.id);
  }

  // The place of the volume mount of model i.
  function VolumePlace(c: Catalog, i: nat): nat
    requires i <= |c.models|
  {
    |VolumeMountsOf(c, c.models[..i])|
  }

  lemma {:induction false} VolumePlaceHolds(c: Catalog, i: nat, k: nat)
    requires i < k <= |c.models| && Claimed(c, c.models[i])
    ensures VolumePlace(c, i) < |VolumeMountsOf(c, c.models[..k])|
    ensures VolumeMountsOf(c, c.models[..k])[VolumePlace(c, i)] == VolumeMountOf(c.models[i])
    decreases k
  {
    assert c.models[..k][..k - 1] == c.models[..k - 1];
    if i < k - 1 { VolumePlaceHolds(c, i, k - 1); }
  }

  lemma {:induction false} VolumeMountHasModel(c: Catalog, k: nat, j: nat)
    requires k <= |c.models| && j < |VolumeMountsOf(c, c.models[..k])|
    ensures exists i :: 0 <= i < k && Claimed(c, c.models[i]) && VolumePlace(c, i) == j
    decreases k
  {
    assert c.models[..k][..k - 1] == c.models[..k - 1];
    if j < |VolumeMountsOf(c, c.models[..k - 1])| { VolumeMountHasModel(c, k - 1, j); }
    else { assert Claimed(c, c.models[k - 1]) && VolumePlace(c, k - 1) == j; }
  }

  lemma {:induction false} ContainerPathIs(c: Catalog, i: nat, k: nat)
    requires Valid(c) && i < k <= |c.models| && Runs(c, c.models[i])
    ensures c.models[i].id in ContainerPaths(c, c.models[..k])
    ensures ContainerPaths(c, c.models[..k])[c.models[i].id] == Resolved(c.models[i], K8S_MODELS)
    decreases k
  {
    assert c.models[..k][..k - 1] == c.models[..k - 1];
    if i < k - 1 { ContainerPathIs(c, i, k - 1); }
  }

  lemma VolumeMountIsOwn(c: Catalog, i: nat, j: nat)
    requires Valid(c) && i < |c.models| && Claimed(c, c.models[i]) && j < |VolumeMountsOf(c, c.models)|
    ensures VolumePlace(c, i) < |VolumeMountsOf(c, c.models)|
    ensures VolumeMountsOf(c, c.models)[VolumePlace(c, i)] == VolumeMountOf(c.models[i])
    ensures VolumeMountsOf(c, c.models)[j].mountPath == TargetDir(c.models[i].id) <==> j == VolumePlace(c, i)
  {
    assert c.models[..|c.models|] == c.models;
    VolumePlaceHolds(c, i, |c.models|);
    VolumeMountHasModel(c, |c.models|, j);
    var n :| 0 <= n < |c.models| && Claimed(c, c.models[n]) && VolumePlace(c, n) == j;
    VolumePlaceHolds(c, n, |c.models|);
    DirsDiffer(c.models[i].id, c.models[n].id);
    assert n != i ==> c.models[n].id != c.models[i].id;
  }

  /** The Kubernetes values agree in the same way: a model on a claim or a host directory has one volume
      mount at its directory, and the container path lies under it exactly when it fits. */
  lemma VolumeMountsAgree(c: Catalog, i: nat, j: nat)
    requires Valid(c) && i < |c.models| && Claimed(c, c.models[i]) && j < |VolumeMountsOf(c, c.models)|
    ensures var mounts, paths, id := VolumeMountsOf(c, c.models), ContainerPaths(c, c.models), c.models[i].id;
      && id in paths && paths[id].Some? && VolumePlace(c, i) < |mounts|
      && (mounts[j].mountPath == TargetDir(id) <==> j == VolumePlace(c, i))
      && (Ancestor(PathOf(mounts[VolumePlace(c, i)].mountPath), paths[id].value) <==> Fits(c.models[i]))
  {
    assert c.models[..|c.models|] == c.models;
    ContainerPathIs(c, i, |c.models|);
    VolumeMountIsOwn(c, i, j);
    VolumeHoldsExactly(c.models[i], K8S_MODELS);
  }

  lemma DirsDiffer(a: string, b: string)
    ensures TargetDir(a) == TargetDir(b) <==> a == b
  {
    var front := |"/models/external/"|;
    assert TargetDir(a)[front..] == a && TargetDir(b)[front..] == b;
  }

  // The section of a mounted model is in models.ini.
  lemma {:induction false} MountedIsInIni(c: Catalog, i: nat, k: nat, modelsDir: Path)
    requires i < k <= |c.models| && Mounted(c, c.models[i])
    ensures SectionOf(c.models[i], modelsDir) in Sections(c, c.models[..k], modelsDir)
    decreases k
  {
    assert c.models[..k][..k - 1] == c.models[..k - 1];
    if i < k - 1 { MountedIsInIni(c, i, k - 1, modelsDir); }
  }

  /** An absolute path inside a volume breaks the agreement. */
  lemma AbsoluteSubPathMisses(id: string, volume: string)
    requires IsId(id) && volume != ""
    ensures var m := Model(id, true, "local", "", Artifact(DockerVolume, "", "", "/" + id, volume));
      var c := Catalog(map["local" := Backend(LlamaCpp, true)], [m]);
      && Valid(c) && Mounted(c, m)
      && !Ancestor(PathOf(MountOf(m).target), Resolved(m, PathOf("/models")).value)
  {
    RootedMisses(Model(id, true, "local", "", Artifact(DockerVolume, "", "", "/" + id, volume)), PathOf("/models"));
  }

  lemma RootedMisses(m: Model, modelsDir: Path)
    requires IsId(m.id) && m.artifact.kind.DockerVolume? && m.artifact.subPath == "/" + m.id
    ensures Resolved(m, modelsDir).Some? && !Ancestor(PathOf(MountOf(m).target), Resolved(m, modelsDir).value)
  {
    MountHoldsExactly(m, modelsDir);
    RootedIdIsOnePart(m.id);
  }

  lemma RootedIdIsOnePart(id: string)
    requires IsId(id)
    ensures |PathOf("/" + id).parts| <= 1 && !RootOf("/" + id).NoRoot?
  {
    AbsoluteParts(id);
    assert '/' !in id;
    OnePart(id);
  }

  // ---------------------------------------------------------------- the artifact's own file

  /** managed_path: where the download command puts a managed model. */
  function ManagedPath(m: Model, modelsDir: Path): Path {
    Joined(Joined(modelsDir, "managed"), Filename(m))
  }

  // The file name as the end of a path.
  function NamePart(m: Model): seq<string> {
    if Filename(m) == "" then [] else [Filename(m)]
  }

  /** A path below the mount's target, seen through the mount, is the same way down from its source. */
  predicate SeenAs(path: Path, target: Path, source: Path, file: Path) {
    && path.root == target.root && target.parts <= path.parts
    && file == Path(source.root, source.parts + path.parts[|target.parts|..])
  }

  /** The name of the file: the last part of the one given, or else of the path if that names a GGUF file, or
      else made from the id. */
  lemma FilenameIs(m: Model, dir: string, name: string)
    requires IsPart(name)
    ensures m.artifact.filename == name || m.artifact.filename == dir + "/" + name ==> Filename(m) == name
    ensures m.artifact.filename == "" && IsGguf(name) && (m.artifact.path == name || m.artifact.path == dir + "/" + name) ==>
      Filename(m) == name
    ensures m.artifact.filename == "" && m.artifact.path == "" ==> Filename(m) == m.id + ".gguf"
    ensures m.artifact.filename == "" && !IsGguf(name) && (m.artifact.path == name || m.artifact.path == dir + "/" + name) ==>
      Filename(m) == m.id + ".gguf"
  {
    OnePart(name);
    PartsConcat(dir, name);
  }

  /** The section of a managed model names the very file the download command writes. */
  lemma ManagedIsWhereDownloaded(m: Model, modelsDir: Path)
    requires IsId(m.id) && m.artifact.kind.Managed?
    ensures Resolved(m, modelsDir) == Some(ManagedPath(m, modelsDir))
    ensures Resolved(m, modelsDir) == Some(Path(modelsDir.root, modelsDir.parts + ["managed"] + NamePart(m)))
  {
    FilenameIsOnePart(m);
    assert '/' !in "managed";
    OnePart("managed");
    assert RootOf("managed") == NoRoot && RootOf(Filename(m)) == NoRoot;
  }

  /** So two managed models share a path exactly when they share a file name. */
  lemma ManagedDistinct(m: Model, n: Model, modelsDir: Path)
    requires IsId(m.id) && m.artifact.kind.Managed? && IsId(n.id) && n.artifact.kind.Managed?
    ensures Resolved(m, modelsDir) == Resolved(n, modelsDir) <==> Filename(m) == Filename(n)
  {
    ManagedIsWhereDownloaded(m, modelsDir);
    ManagedIsWhereDownloaded(n, modelsDir);
    var dir := modelsDir.parts + ["managed"];
    assert (dir + NamePart(m))[|dir|..] == NamePart(m) && (dir + NamePart(n))[|dir|..] == NamePart(n);
  }

  /** A path in the container is taken as it is. */
  lemma ContainerPathIsItself(m: Model, modelsDir: Path)
    requires m.artifact.kind.ContainerPath?
    ensures Resolved(m, modelsDir) == Some(PathOf(m.artifact.path))
  {
  }

  /** Through its mount, the section of a model on the host is the file given, or the named file of the
      directory given. */
  lemma HostFileDelivered(m: Model, modelsDir: Path)
    requires IsId(m.id) && m.artifact.kind.HostPath?
    ensures Resolved(m, modelsDir).Some? && MountOf(m).Bind?
    ensures var source := PathOf(MountOf(m).source);
      && source == PathOf(m.artifact.path)
      && SeenAs(Resolved(m, modelsDir).value, PathOf(MountOf(m).target), source,
                if IsGguf(NameOf(m.artifact.path)) then source else Path(source.root, source.parts + NamePart(m)))
  {
    DirPath(m.id);
    FilePath(m);
    var dir := ["models", "external", m.id];
    var parts := dir + NamePart(m);
    assert parts[|parts|..] == [] && parts[|dir|..] == NamePart(m) && dir <= parts && parts <= parts;
    var source := PathOf(m.artifact.path);
    assert source.parts + [] == source.parts;
  }

  /** Through its volume, the section of a model is the way given inside the volume, or the named file at its
      top; a way given from the root is taken as it is instead. */
  lemma VolumeFileDelivered(m: Model, modelsDir: Path, volume: Path)
    requires IsId(m.id) && HasVolume(m)
    ensures Resolved(m, modelsDir).Some?
    ensures !RootOf(m.artifact.subPath).NoRoot? ==> Resolved(m, modelsDir).value == PathOf(m.artifact.subPath)
    ensures RootOf(m.artifact.subPath).NoRoot? ==>
      SeenAs(Resolved(m, modelsDir).value, PathOf(TargetDir(m.id)), volume,
                   Path(volume.root, volume.parts + if m.artifact.subPath != "" then Parts(m.artifact.subPath) else NamePart(m)))
  {
    DirPath(m.id);
    FilenameIsOnePart(m);
    var dir, rest := ["models", "external", m.id], Parts(Inside(m));
    assert (dir + rest)[|dir|..] == rest && dir <= dir + rest;
  }

  // ---------------------------------------------------------------- which models are rendered

  // The place of the section of model i.
  function SectionPlace(c: Catalog, i: nat, modelsDir: Path): nat
    requires i <= |c.models|
  {
    |Sections(c, c.models[..i], modelsDir)|
  }

  predicate Renders(c: Catalog, m: Model) {
    m.enabled && m.backend in c.backends && c.backends[m.backend].kind.LlamaCpp?
  }

  lemma {:induction false} SectionHolds(c: Catalog, i: nat, k: nat, modelsDir: Path)
    requires Valid(c) && i < k <= |c.models| && Renders(c, c.models[i])
    ensures SectionPlace(c, i, modelsDir) < |Sections(c, c.models[..k], modelsDir)|
    ensures !c.models[i].artifact.kind.NoArtifact?
    ensures Sections(c, c.models[..k], modelsDir)[SectionPlace(c, i, modelsDir)] == SectionOf(c.models[i], modelsDir)
    decreases k
  {
    assert c.models[..k][..k - 1] == c.models[..k - 1];
    assert ValidModel(c, c.models[i]);
    if i < k - 1 { SectionHolds(c, i, k - 1, modelsDir); }
  }

  lemma {:induction false} SectionHasModel(c: Catalog, k: nat, j: nat, modelsDir: Path)
    requires k <= |c.models| && j < |Sections(c, c.models[..k], modelsDir)|
    ensures exists i :: 0 <= i < k && Renders(c, c.models[i]) && SectionPlace(c, i, modelsDir) == j
    decreases k
  {
    assert c.models[..k][..k - 1] == c.models[..k - 1];
    if j < |Sections(c, c.models[..k - 1], modelsDir)| { SectionHasModel(c, k - 1, j, modelsDir); }
    else { assert Renders(c, c.models[k - 1]) && SectionPlace(c, k - 1, modelsDir) == j; }
  }

  /** models.ini has one section for each enabled llama.cpp model, in the order of the catalog, under the
      name llama.cpp is asked for and with the model's path, and no other. */
  lemma SectionsAre(c: Catalog, modelsDir: Path, i: nat, j: nat)
    requires Valid(c) && i < |c.models|
    ensures var sections, m := Sections(c, c.models, modelsDir), c.models[i];
      && (m.enabled && c.backends[m.backend].kind.LlamaCpp? ==>
            && SectionPlace(c, i, modelsDir) < |sections|
            && sections[SectionPlace(c, i, modelsDir)].name == (if m.upstream == "" then m.id else m.upstream)
            && Some(sections[SectionPlace(c, i, modelsDir)].model) == Resolved(m, modelsDir))
      && (j < |sections| ==>
            exists n :: 0 <= n < |c.models| && Renders(c, c.models[n]) && SectionPlace(c, n, modelsDir) == j)
  {
    assert c.models[..|c.models|] == c.models && ValidModel(c, c.models[i]);
    if Renders(c, c.models[i]) { SectionHolds(c, i, |c.models|, modelsDir); }
    if j < |Sections(c, c.models, modelsDir)| { SectionHasModel(c, |c.models|, j, modelsDir); }
  }

  /** A model has a mount exactly when it and its llama.cpp backend are enabled and its file is on the host or
      in a Docker volume, and the mount then is at the model's own directory or file. */
  lemma MountedExactly(c: Catalog, i: nat)
    requires Valid(c) && i < |c.models|
    ensures var m, b := c.models[i], c.backends[c.models[i].backend];
      && (Mounted(c, m) <==>
            m.enabled && b.enabled && b.kind.LlamaCpp? && (m.artifact.kind.HostPath? || m.artifact.kind.DockerVolume?))
      && (Mounted(c, m) ==> Place(c, i) < |MountsOf(c, c.models)| && MountsOf(c, c.models)[Place(c, i)] == MountOf(m))
      && (m.artifact.kind.DockerVolume? ==> MountOf(m) == Volume(Dashed("external-" + m.id), "/models/external/" + m.id))
      && (m.artifact.kind.HostPath? ==> MountOf(m).Bind? && MountOf(m).source == m.artifact.path)
  {
    assert ValidModel(c, c.models[i]) && c.models[..|c.models|] == c.models;
    if Mounted(c, c.models[i]) { PlaceHoldsMount(c, i, |c.models|); }
  }

  /** The Kubernetes values name a container path for exactly the models of llama.cpp backends, and a volume
      mount at the model's directory for exactly those of them on a claim or a host directory. */
  lemma ClaimedExactly(c: Catalog, i: nat)
    requires Valid(c) && i < |c.models|
    ensures var m, llama := c.models[i], c.backends[c.models[i].backend].kind.LlamaCpp?;
      && (m.id in ContainerPaths(c, c.models) <==> llama)
      && (llama ==> ContainerPaths(c, c.models)[m.id] == Resolved(m, Path(OneSlash, ["models"])))
      && (Claimed(c, m) <==> llama && (m.artifact.kind.Pvc? || m.artifact.kind.HostPathVolume?))
      && (Claimed(c, m) ==>
            && VolumePlace(c, i) < |VolumeMountsOf(c, c.models)|
            && VolumeMountsOf(c, c.models)[VolumePlace(c, i)] == VolumeMount(Dashed("model-" + m.id), "/models/external/" + m.id))
  {
    assert ValidModel(c, c.models[i]) && c.models[..|c.models|] == c.models;
    if Runs(c, c.models[i]) { ContainerPathIs(c, i, |c.models|); }
    if Claimed(c, c.models[i]) { VolumePlaceHolds(c, i, |c.models|); }
    PathsAreOfModels(c, |c.models|, c.models[i].id);
    if k :| 0 <= k < |c.models| && Runs(c, c.models[k]) && c.models[k].id == c.models[i].id {
      assert k == i;
    }
  }

  lemma {:induction false} PathsAreOfModels(c: Catalog, k: nat, id: string)
    requires k <= |c.models|
    ensures id in ContainerPaths(c, c.models[..k]) ==> exists i :: 0 <= i < k && Runs(c, c.models[i]) && c.models[i].id == id
    decreases k
  {
    if k > 0 {
      assert c.models[..k][..k - 1] == c.models[..k - 1];
      PathsAreOfModels(c, k - 1, id);
    }
  }

  /** A dash for every dot, and nothing else changed. */
  lemma DashedIs(s: string, i: nat)
    requires i < |s|
    ensures |Dashed(s)| == |s| && Dashed(s)[i] == if s[i] == '.' then '-' else s[i]
  {
  }
}
