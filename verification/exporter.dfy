/**
 The per-asset loop of the exporter entry point (src/index.ts:19-45).

 Starting from empty `assetNames` and `svgFiles`, every asset record is looked
 at in order. A record qualifies when its `svgUrl` is present and the name of
 its origin starts with `Icons/`. A qualifying record's display name is
 normalised, made unique against the names produced so far, and then the name
 is pushed onto `assetNames` and one copy-remote-file request for
 `./assets/<name>.svg` is pushed onto `svgFiles`. Other records change nothing.
 */
module Exporter {
  import opened Ascii
  import opened Decimal
  import opened Naming
  import opened Collision

  /** A value that may be `null` in the source. */
  datatype Option<T> = None | Some(value: T)

  /** The `origin` of an asset: where it lives in the design system. */
  datatype AssetOrigin = AssetOrigin(name: Option<string>)

  /** The parts of an SDK asset record the loop reads. */
  datatype AssetRecord = AssetRecord(name: string, origin: Option<AssetOrigin>, svgUrl: Option<string>)

  /** The descriptor `FileHelper.createCopyRemoteFile` is given. */
  datatype CopyRemoteFile = CopyRemoteFile(relativePath: string, fileName: string, url: string)

  /** The loop's accumulators: `assetNames` and `svgFiles`. */
  datatype ExportState = ExportState(names: seq<string>, files: seq<CopyRemoteFile>)

  const IconsPrefix: string := "Icons/"
  const AssetsPath: string := "./assets"
  const SvgExtension: string := ".svg"

  predicate StartsWith(s: string, prefix: string)
  {
    |prefix| <= |s| && s[..|prefix|] == prefix
  }

  /** The record's origin has a name and that name starts with `Icons/`
      (src/index.ts:25); a missing origin or origin name does not qualify. */
  predicate InIconsGroup(a: AssetRecord)
  {
    match a.origin
    case None => false
    case Some(o) =>
      match o.name
      case None => false
      case Some(n) => StartsWith(n, IconsPrefix)
  }

  /** The guard of the loop body (src/index.ts:25): the record has an SVG URL and
      lives in the icons group. */
  predicate Qualifies(a: AssetRecord)
  {
    a.svgUrl.Some? && InIconsGroup(a)
  }

  predicate NoDuplicates(names: seq<string>)
  {
    forall i, j :: 0 <= i < j < |names| ==> names[i] != names[j]
  }

  /** Every file request pairs with the name at the same position. */
  predicate FilesMatchNames(st: ExportState)
  {
    && |st.files| == |st.names|
    && forall i :: 0 <= i < |st.files| ==>
         && st.files[i].relativePath == AssetsPath
         && st.files[i].fileName == st.names[i] + SvgExtension
  }

  /** The name the loop gives a qualifying record, given the names so far. */
  function IconName(a: AssetRecord, names: seq<string>): string
  {
    Resolve(Normalize(a.name), names, 1)
  }

  /** The name given to a record is new, extends the record's normalised
      display name by decimal digits only, and is that normalised name
      whenever it is still free. */
  lemma IconNameSpec(a: AssetRecord, names: seq<string>)
    ensures IconName(a, names) !in names
    ensures StartsWith(IconName(a, names), Normalize(a.name))
    ensures AllDigits(IconName(a, names)[|Normalize(a.name)|..])
    ensures Normalize(a.name) !in names ==> IconName(a, names) == Normalize(a.name)
  {
    ResolveSpec(Normalize(a.name), names, 1);
  }

  /** One pass of the loop body. */
  function Step(st: ExportState, a: AssetRecord): ExportState
  {
    if Qualifies(a) then
      var name := IconName(a, st.names);
      var file := CopyRemoteFile(AssetsPath, name + SvgExtension, a.svgUrl.value);
      ExportState(st.names + [name], st.files + [file])
    else st
  }

  /** A record adds a name exactly when it qualifies, and a record that does
      not qualify changes nothing. A qualifying record appends one new name and
      one request carrying its `svgUrl`; what was there before stays. */
  lemma StepEffect(st: ExportState, a: AssetRecord)
    ensures Qualifies(a) <==> |Step(st, a).names| == |st.names| + 1
    ensures !Qualifies(a) ==> Step(st, a) == st
    ensures Extends(Step(st, a), st)
    ensures Qualifies(a) ==> |Step(st, a).files| == |st.files| + 1
    ensures Qualifies(a) ==> Step(st, a).files[|st.files|].url == a.svgUrl.value
    ensures Qualifies(a) ==> Step(st, a).names[|st.names|] !in st.names
  {
    if Qualifies(a) {
      var r := Step(st, a);
      assert r.names[..|st.names|] == st.names;
      assert r.files[..|st.files|] == st.files;
      IconNameSpec(a, st.names);
    }
  }

  /** One pass keeps the names unique and every request paired with its name. */
  lemma StepPreserves(st: ExportState, a: AssetRecord)
    requires NoDuplicates(st.names) && FilesMatchNames(st)
    ensures NoDuplicates(Step(st, a).names)
    ensures FilesMatchNames(Step(st, a))
  {
    if Qualifies(a) {
      IconNameSpec(a, st.names);
    }
  }

  /** The qualifying records, in encounter order. */
  function Qualifying(assets: seq<AssetRecord>): seq<AssetRecord>
  {
    if assets == [] then []
    else
      var init := assets[..|assets| - 1];
      var last := assets[|assets| - 1];
      Qualifying(init) + (if Qualifies(last) then [last] else [])
  }

  /** The kept records are exactly the input's records that pass the guard:
      every kept one passes and comes from the input, and every input record
      that passes is kept. */
  lemma {:induction false} QualifyingSpec(assets: seq<AssetRecord>)
    ensures |Qualifying(assets)| <= |assets|
    ensures forall i :: 0 <= i < |Qualifying(assets)| ==>
              Qualifies(Qualifying(assets)[i]) && Qualifying(assets)[i] in assets
    ensures forall i :: 0 <= i < |assets| && Qualifies(assets[i]) ==> assets[i] in Qualifying(assets)
  {
    if assets != [] {
      var init := assets[..|assets| - 1];
      var last := assets[|assets| - 1];
      QualifyingSpec(init);
      var q := Qualifying(assets);
      assert q[..|Qualifying(init)|] == Qualifying(init);
      forall i | 0 <= i < |q|
        ensures Qualifies(q[i]) && q[i] in assets
      {
        if i < |Qualifying(init)| {
          assert q[i] == Qualifying(init)[i];
          assert q[i] in init;
        }
      }
      forall i | 0 <= i < |assets| && Qualifies(assets[i])
        ensures assets[i] in q
      {
        if i < |init| {
          assert assets[i] == init[i];
        }
      }
    }
  }

  /** Filtering distributes over concatenation: the kept records of `xs + ys`
      are those of `xs` followed by those of `ys`, each in encounter order. */
  lemma {:induction false} QualifyingAppend(xs: seq<AssetRecord>, ys: seq<AssetRecord>)
    ensures Qualifying(xs + ys) == Qualifying(xs) + Qualifying(ys)
  {
    if ys == [] {
      assert xs + ys == xs;
    } else {
      var init := ys[..|ys| - 1];
      QualifyingAppend(xs, init);
      assert (xs + ys)[..|xs + ys| - 1] == xs + init;
    }
  }

  /** A single record is kept exactly when it passes the guard. */
  lemma QualifyingSingle(a: AssetRecord)
    ensures Qualifying([a]) == if Qualifies(a) then [a] else []
  {
    assert [a][..0] == [];
  }

  /** The whole loop over `assets`, from empty accumulators. */
  function Run(assets: seq<AssetRecord>): ExportState
  {
    if assets == [] then ExportState([], [])
    else Step(Run(assets[..|assets| - 1]), assets[|assets| - 1])
  }

  /** The finished loop never produces the same name twice, and every request
      is named after the name at its position. */
  lemma {:induction false} RunUnique(assets: seq<AssetRecord>)
    ensures NoDuplicates(Run(assets).names)
    ensures FilesMatchNames(Run(assets))
  {
    if assets != [] {
      var init := assets[..|assets| - 1];
      RunUnique(init);
      StepPreserves(Run(init), assets[|assets| - 1]);
    }
  }

  /** Each name is what the normaliser and the collision loop make of the
      record at its position, given the names before it. */
  predicate NamesFollow(names: seq<string>, q: seq<AssetRecord>)
    requires |names| == |q|
  {
    forall i :: 0 <= i < |q| ==> names[i] == IconName(q[i], names[..i])
  }

  /** Each file request copies the `svgUrl` of the record at its position. */
  predicate UrlsFollow(files: seq<CopyRemoteFile>, q: seq<AssetRecord>)
    requires |files| == |q|
  {
    forall i :: 0 <= i < |q| ==> q[i].svgUrl == Some(files[i].url)
  }

  /** `st` is what the loop produces from the qualifying records `q`, position
      by position: the `i`-th name comes from `q[i]`, and the `i`-th request
      copies `q[i]`'s `svgUrl` to `./assets/<name>.svg`. */
  predicate Corresponds(st: ExportState, q: seq<AssetRecord>)
  {
    && |st.names| == |st.files| == |q|
    && FilesMatchNames(st)
    && NamesFollow(st.names, q)
    && UrlsFollow(st.files, q)
  }

  lemma PushName(names: seq<string>, q: seq<AssetRecord>, a: AssetRecord)
    requires |names| == |q| && NamesFollow(names, q)
    ensures NamesFollow(names + [IconName(a, names)], q + [a])
  {
    var ns := names + [IconName(a, names)];
    var qa := q + [a];
    forall i | 0 <= i < |qa|
      ensures ns[i] == IconName(qa[i], ns[..i])
    {
      if i < |q| {
        assert ns[..i] == names[..i];
      } else {
        assert ns[..i] == names;
      }
    }
  }

  lemma PushUrl(files: seq<CopyRemoteFile>, q: seq<AssetRecord>, a: AssetRecord, file: CopyRemoteFile)
    requires |files| == |q| && UrlsFollow(files, q) && a.svgUrl == Some(file.url)
    ensures UrlsFollow(files + [file], q + [a])
  {
  }

  /** One pass of the loop body keeps the correspondence, with the record
      appended to the qualifying ones exactly when it qualifies. */
  lemma StepCorresponds(st: ExportState, q: seq<AssetRecord>, a: AssetRecord)
    requires Corresponds(st, q)
    ensures Corresponds(Step(st, a), q + (if Qualifies(a) then [a] else []))
  {
    if Qualifies(a) {
      var name := IconName(a, st.names);
      assert Step(st, a).names == st.names + [name];
      PushName(st.names, q, a);
      PushUrl(st.files, q, a, Step(st, a).files[|st.files|]);
    }
  }

  /** The loop's result, record by record: the names and file requests
      correspond one to one, in encounter order, with the qualifying records. */
  lemma {:induction false} RunCorrespondence(assets: seq<AssetRecord>)
    ensures Corresponds(Run(assets), Qualifying(assets))
  {
    if assets != [] {
      var init := assets[..|assets| - 1];
      var last := assets[|assets| - 1];
      RunCorrespondence(init);
      StepCorresponds(Run(init), Qualifying(init), last);
    }
  }

  /** Under the correspondence, every name extends the normalised display
      name of its record by decimal digits only, and so consists of ASCII
      letters and digits. */
  lemma CorrespondingNamesShape(st: ExportState, q: seq<AssetRecord>)
    requires Corresponds(st, q)
    ensures forall i :: 0 <= i < |q| ==>
              && StartsWith(st.names[i], Normalize(q[i].name))
              && AllDigits(st.names[i][|Normalize(q[i].name)|..])
    ensures forall i, k :: 0 <= i < |st.names| && 0 <= k < |st.names[i]| ==> IsAlnum(st.names[i][k])
  {
    forall i | 0 <= i < |q|
      ensures StartsWith(st.names[i], Normalize(q[i].name))
      ensures AllDigits(st.names[i][|Normalize(q[i].name)|..])
    {
      assert st.names[i] == IconName(q[i], st.names[..i]);
      IconNameSpec(q[i], st.names[..i]);
    }
    forall i, k | 0 <= i < |st.names| && 0 <= k < |st.names[i]|
      ensures IsAlnum(st.names[i][k])
    {
      var name := st.names[i];
      var base := Normalize(q[i].name);
      assert name == IconName(q[i], st.names[..i]);
      IconNameSpec(q[i], st.names[..i]);
      NormalizeAlphabet(q[i].name);
      if k < |base| {
        assert name[k] == name[..|base|][k];
      } else {
        assert name[k] == name[|base|..][k - |base|];
      }
    }
  }

  /** Every produced name extends the normalised display name of its record by
      decimal digits only, and consists of ASCII letters and digits. */
  lemma NamesShape(assets: seq<AssetRecord>)
    ensures |Run(assets).names| == |Qualifying(assets)|
    ensures forall i :: 0 <= i < |Qualifying(assets)| ==>
              && StartsWith(Run(assets).names[i], Normalize(Qualifying(assets)[i].name))
              && AllDigits(Run(assets).names[i][|Normalize(Qualifying(assets)[i].name)|..])
    ensures forall i, k :: 0 <= i < |Run(assets).names| && 0 <= k < |Run(assets).names[i]| ==>
              IsAlnum(Run(assets).names[i][k])
  {
    RunCorrespondence(assets);
    CorrespondingNamesShape(Run(assets), Qualifying(assets));
  }

  /** `small` lists the names and file requests of `big` up to some point. */
  predicate Extends(big: ExportState, small: ExportState)
  {
    && |small.names| <= |big.names| && big.names[..|small.names|] == small.names
    && |small.files| <= |big.files| && big.files[..|small.files|] == small.files
  }

  lemma ExtendsTransitive(a: ExportState, b: ExportState, c: ExportState)
    requires Extends(b, a) && Extends(c, b)
    ensures Extends(c, a)
  {
    assert c.names[..|a.names|] == c.names[..|b.names|][..|a.names|];
    assert c.files[..|a.files|] == c.files[..|b.files|][..|a.files|];
  }

  /** Running the loop over more records never changes what it produced for
      the earlier ones: the accumulators only grow at the end. */
  lemma {:induction false} RunExtends(assets: seq<AssetRecord>, n: nat)
    requires n <= |assets|
    ensures Extends(Run(assets), Run(assets[..n]))
  {
    if n == |assets| {
      assert assets[..n] == assets;
    } else {
      var init := assets[..|assets| - 1];
      assert init[..n] == assets[..n];
      RunExtends(init, n);
      StepEffect(Run(init), assets[|assets| - 1]);
      ExtendsTransitive(Run(assets[..n]), Run(init), Run(assets));
    }
  }

  /** The loop as the source writes it: a `for` over the records with the
      collision `while` inside. It returns `svgFiles`, and `assetNames` too. */
  method ExportAssets(assets: seq<AssetRecord>) returns (names: seq<string>, files: seq<CopyRemoteFile>)
    ensures ExportState(names, files) == Run(assets)
    ensures NoDuplicates(names)
    ensures |files| == |names| == |Qualifying(assets)|
    ensures forall i :: 0 <= i < |files| ==> files[i].fileName == names[i] + SvgExtension
  {
    names := [];
    files := [];
    for i := 0 to |assets|
      invariant ExportState(names, files) == Run(assets[..i])
    {
      var asset := assets[i];
      assert assets[..i + 1][..i] == assets[..i];
      if asset.svgUrl.Some? && InIconsGroup(asset) {
        var assetName := ResolveLoop(Normalize(asset.name), names);
        names := names + [assetName];
        files := files + [CopyRemoteFile(AssetsPath, assetName + SvgExtension, asset.svgUrl.value)];
      }
    }
    assert assets[..|assets|] == assets;
    RunCorrespondence(assets);
    RunUnique(assets);
  }
}
