/** Exactly when a watcher can see a file that is neither old nor new, and exactly when a certificate is
    torn: paired, for a moment, with a key that is not its own, while the old index names both. */
module RenderTearing {
  import opened Wrappers
  import opened Acme
  import opened Slug
  import opened IndexFile
  import opened Live
  import opened Render
  import opened RenderLaws
  import opened RenderSafety
  import opened RenderEconomy

  /** Both files of this stem have to change. */
  ghost predicate BothChange(prior: View, target: View, stem: string) {
    At(prior, CertName(stem)) != At(target, CertName(stem)) && At(prior, KeyName(stem)) != At(target, KeyName(stem))
  }

  /** The pair of certificate c is torn after the first k edits. */
  ghost predicate TornAfter(place: Place, live: Tree, certs: seq<RenderedCert>, faults: Faults, c: nat, k: nat)
    requires c < |certs|
  {
    k <= |RenderSpec(place, live, certs, faults).log| &&
    Torn(ViewOf(StateAt(place, live, certs, faults, k)), ViewOf(live), TargetOf(place.liveDir, certs), Stems(certs)[c])
  }

  lemma ShapedPair(files: seq<FileSpec>, stems: seq<string>, certs: seq<RenderedCert>,
                   v: View, prior: View, i: nat, gone: set<string>, c: nat)
    requires LaidOut(files, stems, certs) && NamesDistinct(files) && c < |certs| && Shaped(v, prior, files, i, gone)
    ensures At(v, CertName(stems[c])) == At(if 2 * c < i then FilesMap(files) else prior, CertName(stems[c]))
    ensures At(v, KeyName(stems[c])) == At(if 2 * c + 1 < i then FilesMap(files) else prior, KeyName(stems[c]))
  {
    hide Shaped, NamesDistinct, FilesMap;
    FilePresent(v, prior, files, i, gone, 2 * c);
    FilePresent(v, prior, files, i, gone, 2 * c + 1);
  }

  /** A pair of which only one file changes is never torn, in no state of any Render; and whenever a
      pair is torn, the index is still the old one. */
  lemma TornOnlyIfBothChange(place: Place, live: Tree, certs: seq<RenderedCert>, faults: Faults, c: nat, k: nat)
    requires StemsDistinct(Slugs(certs)) && c < |certs| && TornAfter(place, live, certs, faults, c, k)
    ensures BothChange(ViewOf(live), TargetOf(place.liveDir, certs), Stems(certs)[c])
    ensures SameAt(ViewOf(StateAt(place, live, certs, faults, k)), ViewOf(live), INDEX)
  {
    hide RenderSpec, AllFiles, Stems, StemsDistinct, ViewOf, FilesMap, LaidOut, NamesDistinct, Shaped, StateAt, NoneTornBut;
    AllFilesLaidOut(place.liveDir, certs);
    DistinctStemsDistinctNames(place.liveDir, certs);
    StemsCount(certs);
    var v, prior := ViewOf(StateAt(place, live, certs, faults, k)), ViewOf(live);
    var i, gone := StateShape(place, live, certs, faults, k, 0);
    ShapedPair(AllFiles(place.liveDir, certs), Stems(certs), certs, v, prior, i, gone, c);
    var t := AtMostOneTorn(place, live, certs, faults, k);
  }

  lemma StemsCount(certs: seq<RenderedCert>)
    ensures |Stems(certs)| == |certs|
  {
  }

  lemma {:induction false} WritePrefix(live: Tree, files: seq<FileSpec>, faults: Faults, j: nat, n: nat)
    requires j <= n <= |files| && WriteUpTo(live, files, faults, n).err.None?
    ensures WriteUpTo(live, files, faults, j).err.None?
    ensures WriteUpTo(live, files, faults, j).log <= WriteUpTo(live, files, faults, n).log
    decreases n
  {
    hide WriteOne, Replay;
    if j < n { WritePrefix(live, files, faults, j, n - 1); }
  }

  /** After the certificate's own edit, and before its key's. */
  lemma Between(live: Tree, files: seq<FileSpec>, faults: Faults, j: nat) returns (k: nat)
    requires j <= |files| && ReconcileSpec(live, files, faults).err.None?
    ensures k <= |ReconcileSpec(live, files, faults).log|
    ensures Shaped(ViewOf(Replay(live, ReconcileSpec(live, files, faults).log[..k])), ViewOf(live), files, j, {})
  {
    hide WriteUpTo, PruneAll, Replay, ViewOf, FilesMap;
    WritePrefix(live, files, faults, j, |files|);
    var done, log := WriteUpTo(live, files, faults, j).log, ReconcileSpec(live, files, faults).log;
    k := |done|;
    assert log[..k] == done;
    WriteView(live, files, faults, j);
    var v := ViewOf(live) + FilesMap(files[..j]);
    assert v - {} == v;
  }

  lemma TornInBetween(place: Place, live: Tree, certs: seq<RenderedCert>, faults: Faults, c: nat) returns (k: nat)
    requires StemsDistinct(Slugs(certs)) && c < |certs| && RenderSpec(place, live, certs, faults).err.None?
    requires BothChange(ViewOf(live), TargetOf(place.liveDir, certs), Stems(certs)[c])
    ensures TornAfter(place, live, certs, faults, c, k)
    ensures var v, stem := ViewOf(StateAt(place, live, certs, faults, k)), Stems(certs)[c];
      && At(v, CertName(stem)) == At(TargetOf(place.liveDir, certs), CertName(stem))
      && At(v, KeyName(stem)) == At(ViewOf(live), KeyName(stem))
  {
    hide ReconcileSpec, AllFiles, Stems, StemsDistinct, ViewOf, FilesMap, LaidOut, NamesDistinct, Shaped;
    var files := AllFiles(place.liveDir, certs);
    AllFilesLaidOut(place.liveDir, certs);
    DistinctStemsDistinctNames(place.liveDir, certs);
    CertFilesCount(place.liveDir, certs);
    StemsCount(certs);
    k := Between(live, files, faults, 2 * c + 1);
    ShapedPair(files, Stems(certs), certs, ViewOf(StateAt(place, live, certs, faults, k)), ViewOf(live), 2 * c + 1, {}, c);
  }

  /** A Render that succeeds tears a pair, at some moment, exactly if both its files change. */
  lemma TornIff(place: Place, live: Tree, certs: seq<RenderedCert>, faults: Faults, c: nat)
    requires StemsDistinct(Slugs(certs)) && c < |certs| && RenderSpec(place, live, certs, faults).err.None?
    ensures (exists k :: TornAfter(place, live, certs, faults, c, k)) <==>
      BothChange(ViewOf(live), TargetOf(place.liveDir, certs), Stems(certs)[c])
  {
    hide TornAfter, BothChange, StemsDistinct, RenderSpec, TargetOf, ViewOf;
    if BothChange(ViewOf(live), TargetOf(place.liveDir, certs), Stems(certs)[c]) {
      var k := TornInBetween(place, live, certs, faults, c);
    } else {
      forall k: nat ensures !TornAfter(place, live, certs, faults, c, k) {
        if TornAfter(place, live, certs, faults, c, k) { TornOnlyIfBothChange(place, live, certs, faults, c, k); }
      }
    }
  }

  lemma TargetPair(liveDir: string, certs: seq<RenderedCert>, c: nat)
    requires StemsDistinct(Slugs(certs)) && c < |certs|
    ensures At(TargetOf(liveDir, certs), CertName(Stems(certs)[c])) == Some(certs[c].cert)
    ensures At(TargetOf(liveDir, certs), KeyName(Stems(certs)[c])) == Some(certs[c].key)
  {
    hide AllFiles, Stems, StemsDistinct, NamesDistinct;
    var files := AllFiles(liveDir, certs);
    AllFilesLaidOut(liveDir, certs);
    DistinctStemsDistinctNames(liveDir, certs);
    DistinctNamesClashFree(files);
    FilesMapHas(files, |files|);
    assert files[..|files|] == files && files[2 * c] in files && files[2 * c + 1] in files;
  }

  /** A renewal: a certificate comes back under its stem with a new chain and a new key.  Every Render
      of it that succeeds passes through a state in which the index names the new chain with the old key. */
  lemma RenewalTears(place: Place, live: Tree, older: seq<RenderedCert>, b: nat,
                     newer: seq<RenderedCert>, c: nat, faults: Faults) returns (k: nat)
    requires OneLine(place.liveDir) && ViewOf(live) == TargetOf(place.liveDir, older)
    requires StemsDistinct(Slugs(older)) && StemsDistinct(Slugs(newer)) && RenderSpec(place, live, newer, faults).err.None?
    requires b < |older| && c < |newer| && Stems(older)[b] == Stems(newer)[c]
    requires older[b].cert != newer[c].cert && older[b].key != newer[c].key
    ensures k <= |RenderSpec(place, live, newer, faults).log|
    ensures var v, stem := ViewOf(StateAt(place, live, newer, faults, k)), Stems(newer)[c];
      && At(v, stem + ".crt") == Some(newer[c].cert) && At(v, stem + ".key") == Some(older[b].key)
      && "tls.yml" in v && ReadIndex(v["tls.yml"]) == Some(Entries(place.liveDir, older))
      && Entry(place.liveDir + "/" + stem + ".crt", place.liveDir + "/" + stem + ".key") in Entries(place.liveDir, older)
  {
    hide RenderSpec, AllFiles, Stems, StemsDistinct, FilesMap, TargetOf, IndexText, ReadIndex, ViewOf, Torn, StateAt, EntriesUpTo;
    StemsCount(newer);
    StemsCount(older);
    TargetPair(place.liveDir, older, b);
    TargetPair(place.liveDir, newer, c);
    k := TornInBetween(place, live, newer, faults, c);
    TornOnlyIfBothChange(place, live, newer, faults, c, k);
    IndexIsLast(place.liveDir, older, |AllFiles(place.liveDir, older)|);
    OneLineNames(place.liveDir, older);
    IndexRoundTrip(Entries(place.liveDir, older));
    EntriesAt(place.liveDir, Stems(older), |older|);
    assert Entries(place.liveDir, older)[b] == EntryOf(place.liveDir, Stems(newer)[c]);
    PathIs(place.liveDir, Stems(newer)[c]);
  }

  // ----- old or new, exactly

  /** In every state of every Render of these certificates, each file is old or new. */
  ghost predicate AlwaysOldOrNew(place: Place, certs: seq<RenderedCert>) {
    forall live, faults, k: nat, n | k <= |RenderSpec(place, live, certs, faults).log| ::
      OldOrNewAt(place, live, certs, faults, k, n)
  }

  ghost predicate OldOrNewAt(place: Place, live: Tree, certs: seq<RenderedCert>, faults: Faults, k: nat, n: string)
    requires k <= |RenderSpec(place, live, certs, faults).log|
  {
    var v := ViewOf(StateAt(place, live, certs, faults, k));
    SameAt(v, ViewOf(live), n) || SameAt(v, TargetOf(place.liveDir, certs), n)
  }

  /** Of two files that share a name but not their contents, one is not what the name ends up with. */
  lemma Overwritten(files: seq<FileSpec>) returns (j: nat)
    requires !ClashFree(files)
    ensures j < |files| && files[j].name in FilesMap(files) && FilesMap(files)[files[j].name] != files[j].data
  {
    var f, g :| f in files && g in files && f.name == g.name && f.data != g.data;
    FilesMapKeys(files);
    var i :| 0 <= i < |files| && files[i] == f;
    j :| 0 <= j < |files| && files[j] == g;
    if FilesMap(files)[f.name] != f.data { j := i; }
  }

  /** From an empty directory, the clean Render shows it. */
  lemma ClashShows(place: Place, certs: seq<RenderedCert>) returns (k: nat, n: string)
    requires place.baseDir != "" && !ClashFree(AllFiles(place.liveDir, certs))
    ensures k <= |RenderSpec(place, map[], certs, NO_FAULTS).log|
    ensures !OldOrNewAt(place, map[], certs, NO_FAULTS, k, n)
  {
    hide ReconcileSpec, AllFiles, ClashFree, FilesMap, Shaped, ViewOf;
    var files := AllFiles(place.liveDir, certs);
    var j := Overwritten(files);
    n := files[j].name;
    assert Unblocked(map[], files);
    RenderSucceedsIff(place, map[], certs, NO_FAULTS);
    k := Between(map[], files, NO_FAULTS, j + 1);
    EmptyView();
    FilesMapStep(files, j);
    var v := ViewOf(StateAt(place, map[], certs, NO_FAULTS, k));
    assert v == FilesMap(files[..j + 1]) by { ShapedFromEmpty(v, files, j + 1); }
  }

  lemma EmptyView()
    ensures ViewOf(map[]) == map[]
  {
  }

  lemma ShapedFromEmpty(v: View, files: seq<FileSpec>, i: nat)
    requires Shaped(v, map[], files, i, {})
    ensures v == FilesMap(files[..i])
  {
    hide FilesMap;
    var m := FilesMap(files[..i]);
    assert map[] + m - {} == m;
  }

  /** Each file is old or new in every state of every Render exactly when no two files share a name but
      not their contents. */
  lemma OldOrNewIff(place: Place, certs: seq<RenderedCert>)
    ensures AlwaysOldOrNew(place, certs) <==> place.baseDir == "" || ClashFree(AllFiles(place.liveDir, certs))
  {
    hide RenderSpec, AllFiles, ClashFree, ViewOf, TargetOf;
    if place.baseDir == "" {
      forall live, faults, k: nat, n | k <= |RenderSpec(place, live, certs, faults).log|
        ensures OldOrNewAt(place, live, certs, faults, k, n)
      {
        NoOutDirNoEdit(place, live, certs, faults);
      }
    } else if ClashFree(AllFiles(place.liveDir, certs)) {
      forall live, faults, k: nat, n | k <= |RenderSpec(place, live, certs, faults).log|
        ensures OldOrNewAt(place, live, certs, faults, k, n)
      {
        OldOrNew(place, live, certs, faults, k, n);
      }
    } else {
      var k, n := ClashShows(place, certs);
    }
  }

  lemma NoOutDirNoEdit(place: Place, live: Tree, certs: seq<RenderedCert>, faults: Faults)
    requires place.baseDir == ""
    ensures RenderSpec(place, live, certs, faults).log == []
    ensures StateAt(place, live, certs, faults, 0) == live
  {
    hide AllFiles, ReconcileSpec;
  }
}
