/** What `ParseAcme` promises: exactly when it fails, exactly which entry it keeps for each
    main domain, and that nothing else about the file's layout can be seen in its result. */
module AcmeLaws {
  import opened Wrappers
  import opened Text
  import opened Sorting
  import opened Acme

  // ----- what the walk computes: the last usable entry of each main domain wins

  predicate UsableFor(c: AcmeCertificate, main: string) {
    Usable(c) && Trim(c.main) == main
  }

  ghost function LastIn(certs: seq<AcmeCertificate>, main: string): Option<AcmeCertificate>
    decreases |certs|
  {
    if certs == [] then None
    else if UsableFor(certs[|certs| - 1], main) then Some(certs[|certs| - 1])
    else LastIn(certs[..|certs| - 1], main)
  }

  ghost function LastOf(f: AcmeFile, names: seq<string>, main: string): Option<AcmeCertificate>
    requires forall n | n in names :: n in f
    decreases |names|
  {
    if names == [] then None
    else
      var here := LastIn(f[names[|names| - 1]], main);
      if here.Some? then here else LastOf(f, names[..|names| - 1], main)
  }

  ghost predicate BadIn(codec: Codec, certs: seq<AcmeCertificate>) {
    exists c | c in certs :: Usable(c) && !Decodes(codec, c)
  }

  ghost predicate BadFile(codec: Codec, f: AcmeFile, names: seq<string>)
    requires forall n | n in names :: n in f
  {
    exists n | n in names :: BadIn(codec, f[n])
  }

  lemma {:induction false} WalkResolverIs(codec: Codec, acc: CertMap, resolver: string, certs: seq<AcmeCertificate>)
    ensures var r := WalkResolver(codec, acc, resolver, certs);
      && (r.Failure? <==> BadIn(codec, certs))
      && (r.Success? ==> forall m ::
          match LastIn(certs, m)
          case Some(c) => m in r.value && Decodes(codec, c) && r.value[m] == RenderedOf(codec, c)
          case None => (m in r.value <==> m in acc) && (m in acc ==> r.value[m] == acc[m]))
    decreases |certs|
  {
    if certs != [] {
      var init, last := certs[..|certs| - 1], certs[|certs| - 1];
      WalkResolverIs(codec, acc, resolver, init);
      assert certs == init + [last];
      assert forall c :: c in certs <==> c in init || c == last;
    }
  }

  lemma {:induction false} WalkFileIs(codec: Codec, f: AcmeFile, names: seq<string>)
    requires forall n | n in names :: n in f
    ensures var r := WalkFile(codec, f, names);
      && (r.Failure? <==> BadFile(codec, f, names))
      && (r.Success? ==> forall m ::
          match LastOf(f, names, m)
          case Some(c) => m in r.value && Decodes(codec, c) && r.value[m] == RenderedOf(codec, c)
          case None => m !in r.value)
    decreases |names|
  {
    if names != [] {
      var init, last := names[..|names| - 1], names[|names| - 1];
      WalkFileIs(codec, f, init);
      assert names == init + [last];
      assert forall n :: n in names <==> n in init || n == last;
      var before := WalkFile(codec, f, init);
      if before.Success? {
        WalkResolverIs(codec, before.value, last, f[last]);
      }
    }
  }

  // ----- failure, and the entry kept, in terms of positions in the file

  /** Entry j of resolver `name` is the last usable one for its main domain: every other is in an
      earlier resolver (by name) or earlier in the same resolver. */
  ghost predicate IsLast(f: AcmeFile, name: string, j: int) {
    && name in f && 0 <= j < |f[name]| && Usable(f[name][j])
    && forall other, k | other in f && 0 <= k < |f[other]| && UsableFor(f[other][k], Trim(f[name][j].main)) ::
         Lt(other, name) || (other == name && k <= j)
  }

  ghost predicate SortedByMain(out: seq<RenderedCert>) {
    forall i, j | 0 <= i < j < |out| :: Lt(out[i].main, out[j].main)
  }

  lemma {:induction false} LastInIsLast(certs: seq<AcmeCertificate>, main: string) returns (j: int)
    ensures LastIn(certs, main).None? ==> forall k | 0 <= k < |certs| :: !UsableFor(certs[k], main)
    ensures LastIn(certs, main).Some? ==>
      && 0 <= j < |certs| && certs[j] == LastIn(certs, main).value && UsableFor(certs[j], main)
      && forall k | j < k < |certs| :: !UsableFor(certs[k], main)
    decreases |certs|
  {
    j := |certs| - 1;
    if certs != [] && !UsableFor(certs[j], main) {
      var init := certs[..j];
      j := LastInIsLast(init, main);
      assert forall k | 0 <= k < |init| :: certs[k] == init[k];
    }
  }

  lemma {:induction false} LastOfIsLast(f: AcmeFile, names: seq<string>, main: string) returns (i: int, j: int)
    requires forall n | n in names :: n in f
    ensures LastOf(f, names, main).None? ==>
      forall i', k | 0 <= i' < |names| && 0 <= k < |f[names[i']]| :: !UsableFor(f[names[i']][k], main)
    ensures LastOf(f, names, main).Some? ==>
      && 0 <= i < |names| && 0 <= j < |f[names[i]]|
      && f[names[i]][j] == LastOf(f, names, main).value && UsableFor(f[names[i]][j], main)
      && forall i', k | 0 <= i' < |names| && 0 <= k < |f[names[i']]| && UsableFor(f[names[i']][k], main) ::
           i' < i || (i' == i && k <= j)
    decreases |names|
  {
    hide LastIn, UsableFor;
    i, j := |names| - 1, 0;
    if names != [] {
      j := LastInIsLast(f[names[i]], main);
      if LastIn(f[names[i]], main).None? {
        var init := names[..i];
        i, j := LastOfIsLast(f, init, main);
      }
    }
  }

  lemma LastOfIsLastInFile(f: AcmeFile, main: string) returns (name: string, j: int)
    ensures LastOf(f, SortedSet(f.Keys), main).None? ==>
      forall other, k | other in f && 0 <= k < |f[other]| :: !UsableFor(f[other][k], main)
    ensures LastOf(f, SortedSet(f.Keys), main).Some? ==>
      IsLast(f, name, j) && Trim(f[name][j].main) == main && f[name][j] == LastOf(f, SortedSet(f.Keys), main).value
  {
    var names := SortedSet(f.Keys);
    var i;
    i, j := LastOfIsLast(f, names, main);
    name := "";
    if LastOf(f, names, main).Some? {
      name := names[i];
      assert name in names;
      forall other, k | other in f && 0 <= k < |f[other]| && UsableFor(f[other][k], main)
        ensures Lt(other, name) || (other == name && k <= j)
      {
        assert other in names;
        var i' :| 0 <= i' < |names| && names[i'] == other;
      }
    } else {
      forall other, k | other in f && 0 <= k < |f[other]| ensures !UsableFor(f[other][k], main) {
        assert other in names;
        var i' :| 0 <= i' < |names| && names[i'] == other;
      }
    }
  }

  lemma ListedIs(byMain: CertMap)
    requires KeyedByMain(byMain)
    ensures SortedByMain(Listed(byMain))
    ensures forall c :: c in Listed(byMain) <==> c.main in byMain && byMain[c.main] == c
  {
    var mains, out := SortedSet(byMain.Keys), Listed(byMain);
    forall i | 0 <= i < |mains| ensures mains[i] in byMain && out[i] == byMain[mains[i]] {
      assert mains[i] in mains;
    }
    forall c: RenderedCert | c.main in byMain && byMain[c.main] == c ensures c in out {
      assert c.main in mains;
      var i :| 0 <= i < |mains| && mains[i] == c.main;
      assert out[i] == c;
    }
  }

  /** Parsing fails exactly when some usable entry does not decode, even one that a later entry
      would have replaced. */
  lemma FailsOnUsable(codec: Codec, raw: Bytes, f: AcmeFile)
    requires codec.unmarshal(raw) == Some(f)
    ensures Parse(codec, raw).Failure? <==>
      exists name, j :: name in f && 0 <= j < |f[name]| && Usable(f[name][j]) && !Decodes(codec, f[name][j])
  {
    var names := SortedSet(f.Keys);
    WalkFileIs(codec, f, names);
    if BadFile(codec, f, names) {
      var n :| n in names && BadIn(codec, f[n]);
      var c :| c in f[n] && Usable(c) && !Decodes(codec, c);
      var j :| 0 <= j < |f[n]| && f[n][j] == c;
    } else {
      forall name, j | name in f && 0 <= j < |f[name]| && Usable(f[name][j]) ensures Decodes(codec, f[name][j]) {
        assert name in names && f[name][j] in f[name];
      }
    }
  }

  /** c is what rendering entry j of resolver `name` gives, and that entry is the last of its main domain. */
  ghost predicate FromLast(codec: Codec, f: AcmeFile, c: RenderedCert, name: string, j: int) {
    IsLast(f, name, j) && Decodes(codec, f[name][j]) && c == RenderedOf(codec, f[name][j])
  }

  /** A successful parse is strictly sorted by main domain, holds one certificate for each main
      domain with a usable entry, and that one comes from the last such entry. */
  lemma KeepsLastUsable(codec: Codec, raw: Bytes, f: AcmeFile)
    requires codec.unmarshal(raw) == Some(f) && Parse(codec, raw).Success?
    ensures var out := Parse(codec, raw).value;
      && SortedByMain(out)
      && (forall c | c in out :: exists name, j :: FromLast(codec, f, c, name, j))
      && (forall name, j | name in f && 0 <= j < |f[name]| && Usable(f[name][j]) ::
            exists c :: c in out && c.main == Trim(f[name][j].main))
  {
    var names := SortedSet(f.Keys);
    WalkFileIs(codec, f, names);
    var out, byMain := Parse(codec, raw).value, WalkFile(codec, f, names).value;
    forall m | m in byMain
      ensures byMain[m].main == m
      ensures exists name, j :: FromLast(codec, f, byMain[m], name, j)
    {
      var name, j := LastOfIsLastInFile(f, m);
      assert FromLast(codec, f, byMain[m], name, j);
    }
    ListedIs(byMain);
    forall name, j | name in f && 0 <= j < |f[name]| && Usable(f[name][j])
      ensures exists c :: c in out && c.main == Trim(f[name][j].main)
    {
      var main := Trim(f[name][j].main);
      var n', j' := LastOfIsLastInFile(f, main);
      assert UsableFor(f[name][j], main);
      assert byMain[main] in out;
    }
  }

  // ----- the layout of the file does not show

  /** The usable entries of one main domain, in order. */
  ghost function Only(certs: seq<AcmeCertificate>, main: string): seq<AcmeCertificate>
    decreases |certs|
  {
    if certs == [] then []
    else
      var init, last := certs[..|certs| - 1], certs[|certs| - 1];
      Only(init, main) + if UsableFor(last, main) then [last] else []
  }

  /** Two files whose resolvers list the same usable entries for each main domain, in the same order. */
  ghost predicate SameEntries(f: AcmeFile, g: AcmeFile) {
    f.Keys == g.Keys && forall name, main | name in f :: Only(f[name], main) == Only(g[name], main)
  }

  lemma {:induction false} OnlyIs(certs: seq<AcmeCertificate>, main: string)
    ensures LastIn(certs, main) == (var o := Only(certs, main); if o == [] then None else Some(o[|o| - 1]))
    ensures forall c :: c in Only(certs, main) <==> c in certs && UsableFor(c, main)
    decreases |certs|
  {
    if certs != [] {
      var init, last := certs[..|certs| - 1], certs[|certs| - 1];
      OnlyIs(init, main);
      assert certs == init + [last];
      assert forall c :: c in certs <==> c in init || c == last;
    }
  }

  lemma {:induction false} SameLastOf(f: AcmeFile, g: AcmeFile, names: seq<string>, main: string)
    requires SameEntries(f, g) && forall n | n in names :: n in f
    ensures LastOf(f, names, main) == LastOf(g, names, main)
    decreases |names|
  {
    if names != [] {
      var last := names[|names| - 1];
      OnlyIs(f[last], main);
      OnlyIs(g[last], main);
      SameLastOf(f, g, names[..|names| - 1], main);
    }
  }

  lemma SameBadFile(codec: Codec, f: AcmeFile, g: AcmeFile, names: seq<string>)
    requires SameEntries(f, g) && forall n | n in names :: n in f
    requires BadFile(codec, f, names)
    ensures BadFile(codec, g, names)
  {
    var n :| n in names && BadIn(codec, f[n]);
    var c :| c in f[n] && Usable(c) && !Decodes(codec, c);
    var main := Trim(c.main);
    OnlyIs(f[n], main);
    OnlyIs(g[n], main);
    assert UsableFor(c, main);
    assert c in Only(g[n], main);
    assert BadIn(codec, g[n]);
  }

  lemma SameKeys(f: AcmeFile, g: AcmeFile)
    requires SameEntries(f, g)
    ensures f.Keys == g.Keys && SameEntries(g, f)
  {
  }

  lemma WalkFailure(codec: Codec, f: AcmeFile, names: seq<string>)
    requires forall n | n in names :: n in f
    ensures WalkFile(codec, f, names).Failure? <==> BadFile(codec, f, names)
  {
    hide WalkFile, BadFile, LastOf;
    WalkFileIs(codec, f, names);
  }

  lemma WalkAt(codec: Codec, f: AcmeFile, names: seq<string>, m: string)
    requires (forall n | n in names :: n in f) && WalkFile(codec, f, names).Success?
    ensures var byMain, last := WalkFile(codec, f, names).value, LastOf(f, names, m);
      if last.Some? then m in byMain && Decodes(codec, last.value) && byMain[m] == RenderedOf(codec, last.value)
      else m !in byMain
  {
    hide WalkFile, BadFile, LastOf, RenderedOf, Decodes;
    WalkFileIs(codec, f, names);
  }

  lemma SameWalk(codec: Codec, f: AcmeFile, g: AcmeFile, names: seq<string>)
    requires SameEntries(f, g) && f.Keys == g.Keys && forall n | n in names :: n in f
    ensures WalkFile(codec, f, names).Success? <==> WalkFile(codec, g, names).Success?
    ensures WalkFile(codec, f, names).Success? ==> WalkFile(codec, f, names) == WalkFile(codec, g, names)
  {
    hide WalkFile, BadFile, LastOf, SameEntries, RenderedOf, Decodes;
    SameKeys(f, g);
    WalkFailure(codec, f, names);
    WalkFailure(codec, g, names);
    if BadFile(codec, f, names) {
      SameBadFile(codec, f, g, names);
    } else if BadFile(codec, g, names) {
      SameBadFile(codec, g, f, names);
    } else {
      var a, b := WalkFile(codec, f, names).value, WalkFile(codec, g, names).value;
      forall m ensures (m in a <==> m in b) && (m in a ==> a[m] == b[m]) {
        WalkAt(codec, f, names, m);
        WalkAt(codec, g, names, m);
        SameLastOf(f, g, names, m);
      }
      assert a == b;
    }
  }

  /** Neither unusable entries nor the relative order of different main domains can be seen in
      what `ParseAcme` returns. */
  lemma ParseIgnoresLayout(codec: Codec, raw: Bytes, raw': Bytes, f: AcmeFile, g: AcmeFile)
    requires codec.unmarshal(raw) == Some(f) && codec.unmarshal(raw') == Some(g)
    requires SameEntries(f, g)
    ensures Parse(codec, raw).Success? <==> Parse(codec, raw').Success?
    ensures Parse(codec, raw).Success? ==> Parse(codec, raw) == Parse(codec, raw')
  {
    hide WalkFile, SameEntries, Listed;
    SameKeys(f, g);
    SameWalk(codec, f, g, SortedSet(f.Keys));
  }

  lemma {:induction false} OnlyConcat(a: seq<AcmeCertificate>, b: seq<AcmeCertificate>, main: string)
    ensures Only(a + b, main) == Only(a, main) + Only(b, main)
    decreases |b|
  {
    if b == [] {
      assert a + b == a;
    } else {
      assert (a + b)[..|a + b| - 1] == a + b[..|b| - 1];
      OnlyConcat(a, b[..|b| - 1], main);
    }
  }

  /** Swapping neighbours with different main domains, inside any resolver, changes nothing. */
  lemma SwapChangesNothing(f: AcmeFile, name: string, a: seq<AcmeCertificate>, x: AcmeCertificate, y: AcmeCertificate, b: seq<AcmeCertificate>)
    requires name in f && f[name] == a + [x, y] + b && Trim(x.main) != Trim(y.main)
    ensures SameEntries(f, f[name := a + [y, x] + b])
  {
    forall main ensures Only(a + [x, y] + b, main) == Only(a + [y, x] + b, main) {
      SwapOnly(a, x, y, b, main);
    }
  }

  lemma OnlyPair(x: AcmeCertificate, y: AcmeCertificate, main: string)
    requires Trim(x.main) != Trim(y.main)
    ensures Only([x, y], main) == Only([y, x], main)
  {
    assert [x, y][..1] == [x] && [y, x][..1] == [y] && [x][..0] == [] && [y][..0] == [];
  }

  lemma SwapOnly(a: seq<AcmeCertificate>, x: AcmeCertificate, y: AcmeCertificate, b: seq<AcmeCertificate>, main: string)
    requires Trim(x.main) != Trim(y.main)
    ensures Only(a + [x, y] + b, main) == Only(a + [y, x] + b, main)
  {
    hide Only;
    OnlyConcat(a + [x, y], b, main);
    OnlyConcat(a + [y, x], b, main);
    OnlyConcat(a, [x, y], main);
    OnlyConcat(a, [y, x], main);
    OnlyPair(x, y, main);
  }

  // ----- the same, in terms of what the file says and what comes out

  /** Not a placeholder: it has a main domain, and texts for both the chain and the key. */
  predicate Complete(e: AcmeCertificate) {
    !AllSpace(e.main) && |e.certificate| > 0 && |e.key| > 0
  }

  lemma CompleteIsUsable(e: AcmeCertificate)
    ensures Complete(e) <==> Usable(e)
  {
    TrimEmptyIff(e.main);
  }

  predicate Position(f: AcmeFile, name: string, j: int) {
    name in f && 0 <= j < |f[name]|
  }

  /** The sorted, trimmed, non-empty ones of the main domain and the other names. */
  ghost predicate NamesFrom(e: AcmeCertificate, names: seq<string>) {
    StrictlySorted(names) &&
    forall x :: x in names <==> x != "" && (x == Trim(e.main) || exists s :: s in e.sans && x == Trim(s))
  }

  /** The chain from the entry's chain, the key from its key. */
  ghost predicate RenderedFrom(codec: Codec, e: AcmeCertificate, c: RenderedCert) {
    && c.main == Trim(e.main) && NamesFrom(e, c.names)
    && codec.decode(e.certificate) == Some(c.cert) && codec.decode(e.key) == Some(c.key)
  }

  /** Every other complete entry for the same main domain is in an earlier resolver (by name) or
      earlier in the same one. */
  ghost predicate LastFor(f: AcmeFile, name: string, j: int) {
    && Position(f, name, j) && Complete(f[name][j])
    && forall other, k | Position(f, other, k) && Complete(f[other][k]) && Trim(f[other][k].main) == Trim(f[name][j].main) ::
         Lt(other, name) || (other == name && k <= j)
  }

  lemma NamesAre(e: AcmeCertificate)
    ensures NamesFrom(e, SortedSet(NameSet([Trim(e.main)] + e.sans)))
  {
    var main := Trim(e.main);
    var all := [main] + e.sans;
    var names := SortedSet(NameSet(all));
    TrimTidies(e.main);
    forall x ensures x in names <==> x != "" && (x == main || exists s :: s in e.sans && x == Trim(s)) {
      assert x in names <==> x in NameSet(all);
      assert forall s :: s in all <==> s == main || s in e.sans;
      if x in NameSet(all) {
        var s :| s in all && Trim(s) != "" && x == Trim(s);
      }
      if x == main && x != "" { assert main in all && Trim(main) == x; }
      if s :| s in e.sans && x == Trim(s) { assert s in all; }
    }
  }

  /** Decoded JSON fails to parse exactly when some complete entry has text that is not base64, even if
      a later entry overrides it. */
  lemma ParseFailsIff(codec: Codec, raw: Bytes, f: AcmeFile)
    requires codec.unmarshal(raw) == Some(f)
    ensures Parse(codec, raw).Failure? <==>
      exists name, j :: Position(f, name, j) && Complete(f[name][j]) &&
        (codec.decode(f[name][j].certificate).None? || codec.decode(f[name][j].key).None?)
  {
    hide Parse, Complete, Usable;
    forall e ensures Complete(e) <==> Usable(e) { CompleteIsUsable(e); }
    FailsOnUsable(codec, raw, f);
    if Parse(codec, raw).Failure? {
      var name, j :| name in f && 0 <= j < |f[name]| && Usable(f[name][j]) && !Decodes(codec, f[name][j]);
      assert Position(f, name, j) && Complete(f[name][j]);
    }
  }

  /** c comes from the last complete entry of its main domain. */
  ghost predicate FromLastComplete(codec: Codec, f: AcmeFile, c: RenderedCert) {
    exists name, j :: LastFor(f, name, j) && RenderedFrom(codec, f[name][j], c)
  }

  ghost predicate Represented(out: seq<RenderedCert>, main: string) {
    exists c :: c in out && c.main == main
  }

  lemma FromLastIs(codec: Codec, f: AcmeFile, c: RenderedCert, name: string, j: int)
    requires FromLast(codec, f, c, name, j)
    ensures FromLastComplete(codec, f, c)
  {
    hide Complete, Usable, NamesFrom;
    forall e ensures Complete(e) <==> Usable(e) { CompleteIsUsable(e); }
    NamesAre(f[name][j]);
    assert LastFor(f, name, j) && RenderedFrom(codec, f[name][j], c);
  }

  /** A successful parse is strictly sorted by main domain; each certificate comes, chain from chain and
      key from key, from the last complete entry of its main domain; and each complete entry's main
      domain is there. */
  lemma ParseKeepsLast(codec: Codec, raw: Bytes, f: AcmeFile)
    requires codec.unmarshal(raw) == Some(f) && Parse(codec, raw).Success?
    ensures var out := Parse(codec, raw).value;
      && SortedByMain(out)
      && (forall c | c in out :: FromLastComplete(codec, f, c))
      && (forall name, j | Position(f, name, j) && Complete(f[name][j]) :: Represented(out, Trim(f[name][j].main)))
  {
    hide Parse, Complete, Usable, FromLast, FromLastComplete;
    KeepsLastUsable(codec, raw, f);
    var out := Parse(codec, raw).value;
    forall c | c in out ensures FromLastComplete(codec, f, c) {
      var name, j :| FromLast(codec, f, c, name, j);
      FromLastIs(codec, f, c, name, j);
    }
    forall name, j | Position(f, name, j) && Complete(f[name][j]) ensures Represented(out, Trim(f[name][j].main)) {
      CompleteIsUsable(f[name][j]);
    }
  }

  /** A file parses to no certificates exactly when none of its entries is complete: `{}`, say, or one
      that holds placeholders only. */
  lemma ParsesToNothingIff(codec: Codec, raw: Bytes, f: AcmeFile)
    requires codec.unmarshal(raw) == Some(f)
    ensures Parse(codec, raw) == Success([]) <==> forall name, j | Position(f, name, j) :: !Complete(f[name][j])
  {
    hide Parse, Complete, RenderedFrom, FromLastComplete;
    ParseFailsIff(codec, raw, f);
    if Parse(codec, raw).Success? {
      ParseKeepsLast(codec, raw, f);
      var out := Parse(codec, raw).value;
      if out != [] {
        assert out[0] in out;
        SomeComplete(codec, f, out[0]);
      }
    }
  }

  lemma SomeComplete(codec: Codec, f: AcmeFile, c: RenderedCert)
    requires FromLastComplete(codec, f, c)
    ensures exists name, j :: Position(f, name, j) && Complete(f[name][j])
  {
    var name, j :| LastFor(f, name, j) && RenderedFrom(codec, f[name][j], c);
    assert Position(f, name, j);
  }

  lemma OnlyPlaceholder(a: seq<AcmeCertificate>, e: AcmeCertificate, b: seq<AcmeCertificate>, main: string)
    requires !Complete(e)
    ensures Only(a + [e] + b, main) == Only(a + b, main)
  {
    hide Only, Complete;
    OnlyConcat(a + [e], b, main);
    OnlyConcat(a, [e], main);
    OnlyConcat(a, b, main);
    assert Only([e], main) == [] by { NoOnly(e, main); }
    assert Only(a, main) + [] == Only(a, main);
  }

  lemma NoOnly(e: AcmeCertificate, main: string)
    requires !Complete(e)
    ensures Only([e], main) == []
  {
    CompleteIsUsable(e);
    assert [e][..0] == [];
  }

  /** A placeholder can be deleted without changing whether the file parses or what it parses to. */
  lemma PlaceholderIgnored(codec: Codec, raw: Bytes, raw': Bytes, f: AcmeFile, name: string,
                           a: seq<AcmeCertificate>, e: AcmeCertificate, b: seq<AcmeCertificate>)
    requires codec.unmarshal(raw) == Some(f) && name in f && f[name] == a + [e] + b && !Complete(e)
    requires codec.unmarshal(raw') == Some(f[name := a + b])
    ensures Parse(codec, raw).Success? <==> Parse(codec, raw').Success?
    ensures Parse(codec, raw).Success? ==> Parse(codec, raw) == Parse(codec, raw')
  {
    hide Parse, Only, Complete;
    var g := f[name := a + b];
    forall main ensures Only(f[name], main) == Only(g[name], main) { OnlyPlaceholder(a, e, b, main); }
    assert SameEntries(f, g);
    ParseIgnoresLayout(codec, raw, raw', f, g);
  }

  // ----- which error

  ghost predicate Bad(codec: Codec, e: AcmeCertificate) {
    Usable(e) && !Decodes(codec, e)
  }

  function ErrorOf(codec: Codec, e: AcmeCertificate, resolver: string): ParseError {
    if codec.decode(e.certificate).None? then BadCertificate(Trim(e.main), resolver) else BadKey(Trim(e.main), resolver)
  }

  lemma {:induction false} ResolverError(codec: Codec, acc: CertMap, resolver: string, certs: seq<AcmeCertificate>) returns (j: int)
    requires WalkResolver(codec, acc, resolver, certs).Failure?
    ensures 0 <= j < |certs| && Bad(codec, certs[j]) && forall k | 0 <= k < j :: !Bad(codec, certs[k])
    ensures WalkResolver(codec, acc, resolver, certs).error == ErrorOf(codec, certs[j], resolver)
    decreases |certs|
  {
    j := |certs| - 1;
    var init := certs[..j];
    if WalkResolver(codec, acc, resolver, init).Failure? {
      j := ResolverError(codec, acc, resolver, init);
      assert forall k | 0 <= k <= j :: certs[k] == init[k];
    } else {
      WalkResolverIs(codec, acc, resolver, init);
      assert forall k | 0 <= k < j :: certs[k] in init;
    }
  }

  lemma {:induction false} FileError(codec: Codec, f: AcmeFile, names: seq<string>) returns (i: int, j: int)
    requires (forall n | n in names :: n in f) && WalkFile(codec, f, names).Failure?
    ensures 0 <= i < |names| && 0 <= j < |f[names[i]]| && Bad(codec, f[names[i]][j])
    ensures forall k | 0 <= k < j :: !Bad(codec, f[names[i]][k])
    ensures forall i', k | 0 <= i' < i && 0 <= k < |f[names[i']]| :: !Bad(codec, f[names[i']][k])
    ensures WalkFile(codec, f, names).error == ErrorOf(codec, f[names[i]][j], names[i])
    decreases |names|
  {
    hide Bad, ErrorOf, WalkResolver;
    i := |names| - 1;
    var init := names[..i];
    var before := WalkFile(codec, f, init);
    if before.Failure? {
      i, j := FileError(codec, f, init);
      assert forall i' | 0 <= i' <= i :: names[i'] == init[i'];
    } else {
      j := ResolverError(codec, before.value, names[i], f[names[i]]);
      forall i', k | 0 <= i' < i && 0 <= k < |f[names[i']]| ensures !Bad(codec, f[names[i']][k]) {
        NoneBad(codec, f, init, i', k);
      }
    }
  }

  lemma NoneBad(codec: Codec, f: AcmeFile, names: seq<string>, i: int, k: int)
    requires (forall n | n in names :: n in f) && WalkFile(codec, f, names).Success?
    requires 0 <= i < |names| && 0 <= k < |f[names[i]]|
    ensures !Bad(codec, f[names[i]][k])
  {
    hide WalkFile, LastOf;
    WalkFileIs(codec, f, names);
    assert names[i] in names && f[names[i]][k] in f[names[i]];
  }

  /** The error names the first complete entry, in (resolver name, position) order, that does not decode:
      its chain, if that is bad, else its key. */
  lemma ParseErrorIs(codec: Codec, raw: Bytes, f: AcmeFile) returns (name: string, j: int)
    requires codec.unmarshal(raw) == Some(f) && Parse(codec, raw).Failure?
    ensures Position(f, name, j) && Complete(f[name][j])
    ensures var e, error := f[name][j], Parse(codec, raw).error;
      if codec.decode(e.certificate).None? then error == BadCertificate(Trim(e.main), name)
      else codec.decode(e.key).None? && error == BadKey(Trim(e.main), name)
    ensures forall other, k | Position(f, other, k) && Complete(f[other][k]) && (Lt(other, name) || (other == name && k < j)) ::
      codec.decode(f[other][k].certificate).Some? && codec.decode(f[other][k].key).Some?
  {
    hide WalkFile, Complete, Usable;
    forall e ensures Complete(e) <==> Usable(e) { CompleteIsUsable(e); }
    var names := SortedSet(f.Keys);
    var i;
    i, j := FileError(codec, f, names);
    name := names[i];
    assert name in names;
    forall other, k | Position(f, other, k) && Complete(f[other][k]) && (Lt(other, name) || (other == name && k < j))
      ensures codec.decode(f[other][k].certificate).Some? && codec.decode(f[other][k].key).Some?
    {
      assert other in names;
      var i' :| 0 <= i' < |names| && names[i'] == other;
      if i < i' { LtAsymmetric(names[i], names[i']); }
      if i' == i { LtAsymmetric(name, name); }
      assert !Bad(codec, f[other][k]);
    }
  }

  /** What is not JSON of the right shape fails as such. */
  lemma BadJsonIff(codec: Codec, raw: Bytes)
    ensures Parse(codec, raw) == Failure(BadJson) <==> codec.unmarshal(raw).None?
  {
    if codec.unmarshal(raw).Some? && Parse(codec, raw).Failure? {
      var name, j := ParseErrorIs(codec, raw, codec.unmarshal(raw).value);
    }
  }
}
