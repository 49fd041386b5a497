/** Safety of every state a watcher of live/ can observe: the index never names a missing file,
    files are old or new, and at most one certificate is between its old and its new pair. */
module RenderSafety {
  import opened Wrappers
  import opened Text
  import opened Sorting
  import opened Acme
  import opened Slug
  import opened IndexFile
  import opened Live
  import opened Render
  import opened RenderLaws

  // ----- the files of a certificate list, by position

  lemma {:induction false} CertFilesAt(stems: seq<string>, certs: seq<RenderedCert>, n: nat, c: nat)
    requires n <= |certs| == |stems|
    ensures var files := CertFilesUpTo(stems, certs, n);
      && |files| == 2 * n
      && (c < n ==>
          && files[2 * c] == FileSpec(CertName(stems[c]), certs[c].cert)
          && files[2 * c + 1] == FileSpec(KeyName(stems[c]), certs[c].key))
    decreases n
  {
    if n > 0 { CertFilesAt(stems, certs, n - 1, c); }
  }

  lemma {:induction false} EntriesAt(liveDir: string, stems: seq<string>, n: nat)
    requires n <= |stems|
    ensures |EntriesUpTo(liveDir, stems, n)| == n
    ensures forall c | 0 <= c < n :: EntriesUpTo(liveDir, stems, n)[c] == EntryOf(liveDir, stems[c])
    decreases n
  {
    if n > 0 { EntriesAt(liveDir, stems, n - 1); }
  }

  lemma StemIsSafe(certs: seq<RenderedCert>, c: nat)
    requires c < |certs|
    ensures AllSafe(Stems(certs)[c])
  {
    SlugIsSafe(certs[c].main);
    DecimalDigits(Occurrence(Slugs(certs), c));
  }

  /** The three kinds of name do not meet: `.crt`, `.key` and the index. */
  lemma ExtensionsDiffer(a: string, b: string)
    ensures CertName(a) != KeyName(b) && CertName(a) != INDEX && KeyName(a) != INDEX
    ensures (CertName(a) == CertName(b) || KeyName(a) == KeyName(b)) ==> a == b
  {
    var ac, bk, ak, bc := CertName(a), KeyName(b), KeyName(a), CertName(b);
    assert ac[|ac| - 1] == 't' && ak[|ak| - 1] == 'y' && bk[|bk| - 1] == 'y' && INDEX[6] == 'l' && |INDEX| == 7;
    assert ac[..|ac| - 4] == a && ak[..|ak| - 4] == a && bc[..|bc| - 4] == b && bk[..|bk| - 4] == b;
  }

  lemma AppendAt<T>(a: seq<T>, x: T, j: nat)
    requires j <= |a|
    ensures (a + [x])[j] == if j < |a| then a[j] else x
  {
  }

  /** Files 2c and 2c + 1 belong to certificate c; the last file is the index. */
  lemma FilesAt(liveDir: string, certs: seq<RenderedCert>, c: nat)
    requires c <= |certs|
    ensures var files := AllFiles(liveDir, certs);
      && |files| == 2 * |certs| + 1
      && (if c == |certs| then files[2 * c] == FileSpec(INDEX, IndexText(Entries(liveDir, certs)))
          else
            && files[2 * c] == FileSpec(CertName(Stems(certs)[c]), certs[c].cert)
            && files[2 * c + 1] == FileSpec(KeyName(Stems(certs)[c]), certs[c].key))
  {
    var stems, text := Stems(certs), IndexText(Entries(liveDir, certs));
    CertFilesAt(stems, certs, |certs|, c);
    AppendAt(CertFiles(certs), FileSpec(INDEX, text), 2 * c);
    if c < |certs| { AppendAt(CertFiles(certs), FileSpec(INDEX, text), 2 * c + 1); }
  }

  /** A list of files laid out for certificates with these stems: pairs first, the index last. */
  ghost predicate LaidOut(files: seq<FileSpec>, stems: seq<string>, certs: seq<RenderedCert>) {
    && |stems| == |certs| && |files| == 2 * |certs| + 1
    && (forall c | 0 <= c < |certs| ::
         && files[2 * c] == FileSpec(CertName(stems[c]), certs[c].cert)
         && files[2 * c + 1] == FileSpec(KeyName(stems[c]), certs[c].key))
    && files[2 * |certs|].name == INDEX
  }

  lemma AllFilesLaidOut(liveDir: string, certs: seq<RenderedCert>)
    ensures LaidOut(AllFiles(liveDir, certs), Stems(certs), certs)
  {
    FilesAt(liveDir, certs, |certs|);
    forall c | 0 <= c < |certs| ensures
      && AllFiles(liveDir, certs)[2 * c] == FileSpec(CertName(Stems(certs)[c]), certs[c].cert)
      && AllFiles(liveDir, certs)[2 * c + 1] == FileSpec(KeyName(Stems(certs)[c]), certs[c].key)
    {
      FilesAt(liveDir, certs, c);
    }
  }

  lemma FileName(files: seq<FileSpec>, stems: seq<string>, certs: seq<RenderedCert>, j: nat)
    requires LaidOut(files, stems, certs) && j < |files|
    ensures files[j].name ==
      if j == 2 * |certs| then INDEX else if j % 2 == 0 then CertName(stems[j / 2]) else KeyName(stems[j / 2])
  {
    var c := j / 2;
    assert j == 2 * c || j == 2 * c + 1;
  }

  ghost predicate NamesDistinct(files: seq<FileSpec>) {
    forall i, j | 0 <= i < j < |files| :: files[i].name != files[j].name
  }

  lemma LaidOutDistinct(files: seq<FileSpec>, stems: seq<string>, certs: seq<RenderedCert>)
    requires LaidOut(files, stems, certs) && Distinct(stems)
    ensures NamesDistinct(files)
  {
    forall i, j | 0 <= i < j < |files| ensures files[i].name != files[j].name {
      FileName(files, stems, certs, i);
      FileName(files, stems, certs, j);
      var a := stems[i / 2];
      if j < 2 * |certs| {
        var b := stems[j / 2];
        assert i / 2 < j / 2 ==> a != b;
        ExtensionsDiffer(a, b);
        ExtensionsDiffer(b, a);
      } else {
        ExtensionsDiffer(a, a);
      }
    }
  }

  /** Distinct stems are all it takes for every file to have its own name. */
  lemma DistinctStemsDistinctNames(liveDir: string, certs: seq<RenderedCert>)
    requires StemsDistinct(Slugs(certs))
    ensures NamesDistinct(AllFiles(liveDir, certs))
  {
    AllFilesLaidOut(liveDir, certs);
    LaidOutDistinct(AllFiles(liveDir, certs), Stems(certs), certs);
  }

  /** Certificates for different plain hosts need no tags: each keeps the pair its host names. */
  lemma PlainMainsNeedNoTags(certs: seq<RenderedCert>)
    requires forall i, j | 0 <= i < j < |certs| :: certs[i].main != certs[j].main
    requires forall c | c in certs :: PlainHost(c.main)
    ensures StemsDistinct(Slugs(certs))
    ensures forall i | 0 <= i < |certs| :: Stems(certs)[i] == Slugify(certs[i].main)
  {
    hide Slugify, PlainHost, Stem;
    var slugs := Slugs(certs);
    forall i, j | 0 <= i < j < |slugs| ensures slugs[i] != slugs[j] {
      if slugs[i] == slugs[j] { SlugifyInjective(certs[i].main, certs[j].main); }
    }
    forall i | 0 <= i < |slugs| ensures Stem(slugs, i) == slugs[i] { DistinctSlugsAreStems(slugs, i); }
  }

  /** Files that share a name have the same contents. */
  ghost predicate ClashFree(files: seq<FileSpec>) {
    forall f, g | f in files && g in files && f.name == g.name :: f.data == g.data
  }

  lemma DistinctNamesClashFree(files: seq<FileSpec>)
    requires NamesDistinct(files)
    ensures ClashFree(files)
  {
    forall f, g | f in files && g in files && f.name == g.name ensures f.data == g.data {
      var i :| 0 <= i < |files| && files[i] == f;
      var j :| 0 <= j < |files| && files[j] == g;
    }
  }

  lemma NoFilesClashFree(liveDir: string)
    ensures ClashFree(AllFiles(liveDir, []))
  {
    AllFilesLaidOut(liveDir, []);
    assert |AllFiles(liveDir, [])| == 1;
  }

  lemma {:induction false} FilesMapHas(files: seq<FileSpec>, i: nat)
    requires ClashFree(files) && i <= |files|
    ensures forall f | f in files[..i] :: f.name in FilesMap(files[..i]) && FilesMap(files[..i])[f.name] == f.data
    decreases i
  {
    if i > 0 {
      FilesMapHas(files, i - 1);
      FilesMapStep(files, i - 1);
      assert files[..i] == files[..i - 1] + [files[i - 1]];
      assert forall f | f in files[..i] :: f in files;
    }
  }

  /** A prefix of clash-free files maps its names as the whole list does. */
  lemma PrefixAgrees(files: seq<FileSpec>, i: nat)
    requires ClashFree(files) && i <= |files|
    ensures forall n | n in FilesMap(files[..i]) :: n in FilesMap(files) && FilesMap(files)[n] == FilesMap(files[..i])[n]
  {
    FilesMapHas(files, i);
    FilesMapHas(files, |files|);
    FilesMapKeys(files[..i]);
    assert files[..|files|] == files;
    forall n | n in FilesMap(files[..i]) ensures n in FilesMap(files) && FilesMap(files)[n] == FilesMap(files[..i])[n] {
      var f :| f in files[..i] && f.name == n;
      assert f in files;
    }
  }

  // ----- the index never names a missing file

  /** `path` is the path, through liveDir, of a file that is there. */
  ghost predicate Present(liveDir: string, v: View, path: string) {
    Join(liveDir, "") <= path && path[|liveDir| + 1..] in v
  }

  /** Every file that tls.yml, read by the independent reader, names is there. */
  ghost predicate IndexClosed(liveDir: string, v: View) {
    INDEX in v ==>
      match ReadIndex(v[INDEX])
      case None => false
      case Some(entries) => forall e | e in entries :: Present(liveDir, v, e.cert) && Present(liveDir, v, e.key)
  }

  lemma JoinPresent(liveDir: string, v: View, name: string)
    requires name in v
    ensures Present(liveDir, v, Join(liveDir, name))
  {
    assert Join(liveDir, name)[|liveDir| + 1..] == name;
    assert Join(liveDir, name)[..|liveDir| + 1] == Join(liveDir, "");
  }

  lemma OneLineEntry(liveDir: string, stem: string)
    requires OneLine(liveDir) && AllSafe(stem)
    ensures OneLine(EntryOf(liveDir, stem).cert) && OneLine(EntryOf(liveDir, stem).key)
  {
    assert OneLine(stem);
  }

  lemma OneLineNames(liveDir: string, certs: seq<RenderedCert>)
    requires OneLine(liveDir)
    ensures OneLineEntries(Entries(liveDir, certs))
  {
    var entries, stems := Entries(liveDir, certs), Stems(certs);
    EntriesAt(liveDir, stems, |certs|);
    forall e | e in entries ensures OneLine(e.cert) && OneLine(e.key) {
      var c :| 0 <= c < |entries| && entries[c] == e;
      StemIsSafe(certs, c);
      OneLineEntry(liveDir, stems[c]);
    }
  }

  /** A view that holds at least the files of a certificate list, with its index, is closed. */
  lemma NewIndexClosed(liveDir: string, certs: seq<RenderedCert>, v: View)
    requires OneLine(liveDir)
    requires NamesOf(AllFiles(liveDir, certs)) <= v.Keys && INDEX in v && v[INDEX] == IndexText(Entries(liveDir, certs))
    ensures IndexClosed(liveDir, v)
  {
    OneLineNames(liveDir, certs);
    IndexRoundTrip(Entries(liveDir, certs));
    AllFilesLaidOut(liveDir, certs);
    EntriesPresent(liveDir, AllFiles(liveDir, certs), Stems(certs), certs, v);
  }

  lemma EntriesPresent(liveDir: string, files: seq<FileSpec>, stems: seq<string>, certs: seq<RenderedCert>, v: View)
    requires LaidOut(files, stems, certs) && NamesOf(files) <= v.Keys
    ensures forall e | e in EntriesUpTo(liveDir, stems, |stems|) :: Present(liveDir, v, e.cert) && Present(liveDir, v, e.key)
  {
    var entries := EntriesUpTo(liveDir, stems, |stems|);
    EntriesAt(liveDir, stems, |stems|);
    forall e | e in entries ensures Present(liveDir, v, e.cert) && Present(liveDir, v, e.key) {
      var c :| 0 <= c < |entries| && entries[c] == e;
      assert files[2 * c] in files && files[2 * c + 1] in files;
      JoinPresent(liveDir, v, CertName(stems[c]));
      JoinPresent(liveDir, v, KeyName(stems[c]));
    }
  }

  /** `path` leads, through liveDir, to the file that carries this stem and extension, and it holds
      this data. */
  ghost predicate LeadsTo(liveDir: string, v: View, path: string, stem: string, ext: string, data: Bytes) {
    path == liveDir + "/" + stem + ext && stem + ext in v && v[stem + ext] == data
  }

  /** The index, as read by the reader, lists for each certificate, in order, where to find its chain and
      where to find its key. */
  ghost predicate ServesPairs(liveDir: string, v: View, certs: seq<RenderedCert>) {
    "tls.yml" in v &&
    match ReadIndex(v["tls.yml"])
    case None => false
    case Some(entries) =>
      |entries| == |certs| && forall c | 0 <= c < |certs| ::
        && LeadsTo(liveDir, v, entries[c].cert, Stem(Slugs(certs), c), ".crt", certs[c].cert)
        && LeadsTo(liveDir, v, entries[c].key, Stem(Slugs(certs), c), ".key", certs[c].key)
  }

  lemma TargetFile(liveDir: string, certs: seq<RenderedCert>, j: nat)
    requires StemsDistinct(Slugs(certs)) && j < |AllFiles(liveDir, certs)|
    ensures var f := AllFiles(liveDir, certs)[j];
      f.name in TargetOf(liveDir, certs) && TargetOf(liveDir, certs)[f.name] == f.data
  {
    hide AllFiles, StemsDistinct, NamesDistinct;
    var files := AllFiles(liveDir, certs);
    DistinctStemsDistinctNames(liveDir, certs);
    DistinctNamesClashFree(files);
    FilesMapHas(files, |files|);
    assert files[..|files|] == files && files[j] in files;
  }

  lemma PathIs(liveDir: string, stem: string)
    ensures EntryOf(liveDir, stem).cert == liveDir + "/" + stem + ".crt"
    ensures EntryOf(liveDir, stem).key == liveDir + "/" + stem + ".key"
    ensures CertName(stem) == stem + ".crt" && KeyName(stem) == stem + ".key" && INDEX == "tls.yml"
  {
    assert liveDir + "/" + (stem + ".crt") == liveDir + "/" + stem + ".crt";
    assert liveDir + "/" + (stem + ".key") == liveDir + "/" + stem + ".key";
  }

  lemma TargetServesPair(liveDir: string, certs: seq<RenderedCert>, c: nat)
    requires StemsDistinct(Slugs(certs)) && c < |certs|
    ensures var v, e, stem := TargetOf(liveDir, certs), EntryOf(liveDir, Stems(certs)[c]), Stem(Slugs(certs), c);
      && Stems(certs)[c] == stem
      && LeadsTo(liveDir, v, e.cert, stem, ".crt", certs[c].cert) && LeadsTo(liveDir, v, e.key, stem, ".key", certs[c].key)
  {
    hide AllFiles, TargetOf, StemsDistinct, Stem, Slugs, EntryOf, CertName, KeyName;
    AllFilesLaidOut(liveDir, certs);
    TargetFile(liveDir, certs, 2 * c);
    TargetFile(liveDir, certs, 2 * c + 1);
    PathIs(liveDir, Stems(certs)[c]);
  }

  lemma IndexServesPairs(liveDir: string, certs: seq<RenderedCert>)
    requires OneLine(liveDir) && StemsDistinct(Slugs(certs))
    ensures ServesPairs(liveDir, TargetOf(liveDir, certs), certs)
  {
    hide AllFiles, TargetOf, StemsDistinct, Stem, EntryOf, LeadsTo, IndexText, ReadIndex;
    IndexIsLast(liveDir, certs, 0);
    PathIs(liveDir, "");
    OneLineNames(liveDir, certs);
    IndexRoundTrip(Entries(liveDir, certs));
    EntriesAt(liveDir, Stems(certs), |certs|);
    forall c | 0 <= c < |certs| ensures
      && LeadsTo(liveDir, TargetOf(liveDir, certs), Entries(liveDir, certs)[c].cert, Stem(Slugs(certs), c), ".crt", certs[c].cert)
      && LeadsTo(liveDir, TargetOf(liveDir, certs), Entries(liveDir, certs)[c].key, Stem(Slugs(certs), c), ".key", certs[c].key)
    {
      TargetServesPair(liveDir, certs, c);
    }
  }

  /** What a successful Render leaves serves each certificate with its own key. */
  lemma RenderServesPairs(place: Place, live: Tree, certs: seq<RenderedCert>, faults: Faults)
    requires OneLine(place.liveDir) && StemsDistinct(Slugs(certs)) && RenderSpec(place, live, certs, faults).err.None?
    ensures ServesPairs(place.liveDir, ViewOf(Replay(live, RenderSpec(place, live, certs, faults).log)), certs)
  {
    hide RenderSpec, ServesPairs, ViewOf, TargetOf, StemsDistinct;
    RenderExact(place, live, certs, faults);
    IndexServesPairs(place.liveDir, certs);
  }

  lemma OldIndexClosed(liveDir: string, v: View, prior: View)
    requires IndexClosed(liveDir, prior) && prior.Keys <= v.Keys
    requires INDEX in v <==> INDEX in prior
    requires INDEX in v ==> v[INDEX] == prior[INDEX]
    ensures IndexClosed(liveDir, v)
  {
  }

  lemma IndexNotEarlier(files: seq<FileSpec>, stems: seq<string>, certs: seq<RenderedCert>, i: nat)
    requires LaidOut(files, stems, certs) && i < |files|
    ensures INDEX !in FilesMap(files[..i])
  {
    FilesMapKeys(files[..i]);
    forall f | f in files[..i] ensures f.name != INDEX {
      var j :| 0 <= j < i && files[j] == f;
      FileName(files, stems, certs, j);
      ExtensionsDiffer(stems[j / 2], "");
    }
  }

  lemma IndexIsLast(liveDir: string, certs: seq<RenderedCert>, i: nat)
    requires i <= |AllFiles(liveDir, certs)|
    ensures INDEX in FilesMap(AllFiles(liveDir, certs)[..i]) <==> i == |AllFiles(liveDir, certs)|
    ensures TargetOf(liveDir, certs).Keys == NamesOf(AllFiles(liveDir, certs))
    ensures INDEX in TargetOf(liveDir, certs) && TargetOf(liveDir, certs)[INDEX] == IndexText(Entries(liveDir, certs))
  {
    var files := AllFiles(liveDir, certs);
    FilesMapKeys(files);
    FilesAt(liveDir, certs, |certs|);
    FilesMapStep(files, |files| - 1);
    assert files[..|files|] == files;
    if i < |files| {
      AllFilesLaidOut(liveDir, certs);
      IndexNotEarlier(files, Stems(certs), certs, i);
    }
  }

  /** From a closed index, every state of every Render has a closed index, wherever errors strike
      or the process dies: certificates precede the index, and removals follow it. */
  lemma IndexClosedThroughout(place: Place, live: Tree, certs: seq<RenderedCert>, faults: Faults, k: nat)
    requires OneLine(place.liveDir) && IndexClosed(place.liveDir, ViewOf(live))
    requires k <= |RenderSpec(place, live, certs, faults).log|
    ensures IndexClosed(place.liveDir, ViewOf(StateAt(place, live, certs, faults, k)))
  {
    var files := AllFiles(place.liveDir, certs);
    var v, prior := ViewOf(StateAt(place, live, certs, faults, k)), ViewOf(live);
    var i, gone := StateShape(place, live, certs, faults, k, 0);
    IndexIsLast(place.liveDir, certs, i);
    if i < |files| {
      OldIndexClosed(place.liveDir, v, prior);
    } else {
      assert files[..i] == files;
      NewIndexClosed(place.liveDir, certs, v);
    }
  }

  // ----- old or new, never anything else

  ghost predicate SameAt(a: View, b: View, n: string) {
    (n in a <==> n in b) && (n in a ==> a[n] == b[n])
  }

  /** Unless two files share a name but not their contents, each file is at every moment as it was
      before the Render or as it is meant to be after it. */
  lemma OldOrNew(place: Place, live: Tree, certs: seq<RenderedCert>, faults: Faults, k: nat, n: string)
    requires ClashFree(AllFiles(place.liveDir, certs))
    requires k <= |RenderSpec(place, live, certs, faults).log|
    ensures var v := ViewOf(StateAt(place, live, certs, faults, k));
      SameAt(v, ViewOf(live), n) || SameAt(v, TargetOf(place.liveDir, certs), n)
  {
    var files := AllFiles(place.liveDir, certs);
    var i, gone := StateShape(place, live, certs, faults, k, 0);
    PrefixAgrees(files, i);
    FilesMapKeys(files);
  }

  // ----- torn pairs

  datatype Pair = Pair(cert: Option<Bytes>, key: Option<Bytes>)

  ghost function At(v: View, n: string): Option<Bytes> {
    if n in v then Some(v[n]) else None
  }

  ghost function PairAt(v: View, stem: string): Pair {
    Pair(At(v, CertName(stem)), At(v, KeyName(stem)))
  }

  /** Neither the old pair nor the new one. */
  ghost predicate Torn(v: View, prior: View, target: View, stem: string) {
    PairAt(v, stem) != PairAt(prior, stem) && PairAt(v, stem) != PairAt(target, stem)
  }

  lemma FilePresent(v: View, prior: View, files: seq<FileSpec>, i: nat, gone: set<string>, j: nat)
    requires Shaped(v, prior, files, i, gone) && NamesDistinct(files) && j < |files|
    ensures j < i ==> At(v, files[j].name) == At(FilesMap(files), files[j].name)
    ensures i <= j ==> At(v, files[j].name) == At(prior, files[j].name)
  {
    hide FilesMap, ClashFree;
    FilesMapKeys(files[..i]);
    assert files[j] in files;
    if j < i {
      assert files[..i][j] == files[j] && files[j] in files[..i];
      DistinctNamesClashFree(files);
      PrefixAgrees(files, i);
    } else {
      NameNotEarlier(files, i, j);
    }
  }

  lemma NameNotEarlier(files: seq<FileSpec>, i: nat, j: nat)
    requires NamesDistinct(files) && i <= j < |files|
    ensures files[j].name !in NamesOf(files[..i])
  {
    forall f | f in files[..i] ensures f.name != files[j].name {
      var k :| 0 <= k < i && files[k] == f;
    }
  }

  lemma PairShape(files: seq<FileSpec>, stems: seq<string>, certs: seq<RenderedCert>,
                  v: View, prior: View, i: nat, gone: set<string>, c: nat)
    requires LaidOut(files, stems, certs) && NamesDistinct(files) && c < |certs|
    requires Shaped(v, prior, files, i, gone)
    ensures 2 * c + 2 <= i ==> PairAt(v, stems[c]) == PairAt(FilesMap(files), stems[c])
    ensures i <= 2 * c ==> PairAt(v, stems[c]) == PairAt(prior, stems[c])
  {
    FilePresent(v, prior, files, i, gone, 2 * c);
    FilePresent(v, prior, files, i, gone, 2 * c + 1);
  }

  /** The edits of step 1 are all among the first k. */
  ghost predicate StepOneDone(place: Place, live: Tree, certs: seq<RenderedCert>, faults: Faults, k: nat) {
    var files := AllFiles(place.liveDir, certs);
    var stepOne := WriteUpTo(live, files, faults, |CertFiles(certs)|);
    place.baseDir != "" && !faults.mkLive && !faults.mkStaging && stepOne.err.None? && |stepOne.log| <= k
  }

  /** Every certificate has its new pair. */
  ghost predicate AllNew(v: View, target: View, stems: seq<string>) {
    forall c | 0 <= c < |stems| :: PairAt(v, stems[c]) == PairAt(target, stems[c])
  }

  /** No pair but, perhaps, that of certificate t is torn. */
  ghost predicate NoneTornBut(t: int, v: View, prior: View, target: View, stems: seq<string>) {
    forall c | 0 <= c < |stems| && c != t :: !Torn(v, prior, target, stems[c])
  }

  lemma TornAt(files: seq<FileSpec>, stems: seq<string>, certs: seq<RenderedCert>,
               v: View, prior: View, i: nat, gone: set<string>) returns (t: nat)
    requires LaidOut(files, stems, certs) && NamesDistinct(files) && Shaped(v, prior, files, i, gone)
    ensures NoneTornBut(t, v, prior, FilesMap(files), stems)
    ensures i >= 2 * |certs| ==> AllNew(v, FilesMap(files), stems)
  {
    hide PairAt, FilesMap, NamesDistinct, Shaped;
    t := i / 2;
    forall c | 0 <= c < |stems|
      ensures c < t ==> PairAt(v, stems[c]) == PairAt(FilesMap(files), stems[c])
      ensures c > t ==> PairAt(v, stems[c]) == PairAt(prior, stems[c])
    {
      PairShape(files, stems, certs, v, prior, i, gone, c);
    }
  }

  /** When every certificate has its own stem, at most one pair is torn at any moment; none is once
      the edits of step 1 are done, and none whenever the index is not the old one. */
  lemma AtMostOneTorn(place: Place, live: Tree, certs: seq<RenderedCert>, faults: Faults, k: nat) returns (t: nat)
    requires StemsDistinct(Slugs(certs))
    requires k <= |RenderSpec(place, live, certs, faults).log|
    ensures var v, prior, target := ViewOf(StateAt(place, live, certs, faults, k)), ViewOf(live), TargetOf(place.liveDir, certs);
      && NoneTornBut(t, v, prior, target, Stems(certs))
      && (StepOneDone(place, live, certs, faults, k) || !SameAt(v, prior, INDEX) ==> AllNew(v, target, Stems(certs)))
  {
    hide RenderSpec, AllFiles, CertFiles, WriteUpTo, Stems, StemsDistinct, ViewOf, FilesMap;
    hide AllNew, NoneTornBut, LaidOut, NamesDistinct, Shaped, StateAt;
    var files := AllFiles(place.liveDir, certs);
    AllFilesLaidOut(place.liveDir, certs);
    DistinctStemsDistinctNames(place.liveDir, certs);
    CertFilesCount(place.liveDir, certs);
    var m := if StepOneDone(place, live, certs, faults, k) then 2 * |certs| else 0;
    var i, gone := StateShape(place, live, certs, faults, k, m);
    var v, prior := ViewOf(StateAt(place, live, certs, faults, k)), ViewOf(live);
    t := TornAt(files, Stems(certs), certs, v, prior, i, gone);
    if !SameAt(v, prior, INDEX) { IndexNewIffWritten(place.liveDir, certs, v, prior, i, gone); }
  }

  lemma CertFilesCount(liveDir: string, certs: seq<RenderedCert>)
    ensures |CertFiles(certs)| == 2 * |certs| && |AllFiles(liveDir, certs)| == 2 * |certs| + 1
  {
    CertFilesAt(Stems(certs), certs, |certs|, 0);
  }

  lemma IndexNewIffWritten(liveDir: string, certs: seq<RenderedCert>, v: View, prior: View, i: nat, gone: set<string>)
    requires Shaped(v, prior, AllFiles(liveDir, certs), i, gone) && !SameAt(v, prior, INDEX)
    ensures i >= 2 * |certs|
  {
    hide AllFiles, FilesMap, TargetOf;
    CertFilesCount(liveDir, certs);
    IndexIsLast(liveDir, certs, i);
  }

  // ----- private keys stay private

  /** Mode 0600: read and write for the owner, nothing for anyone else. */
  ghost predicate AllPrivate(t: Tree) {
    forall n | n in t && t[n].File? :: t[n].mode / 64 == 6 && t[n].mode % 64 == 0
  }

  /** In a directory whose files all have mode 0600, every state of every Render is such. */
  lemma {:induction false} PrivateThroughout(t: Tree, edits: seq<Edit>)
    requires AllPrivate(t)
    ensures AllPrivate(Replay(t, edits))
    decreases |edits|
  {
    if edits != [] { PrivateThroughout(t, edits[..|edits| - 1]); }
  }
}
