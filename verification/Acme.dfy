/** Decoding acme.json into the list of certificates to render (`ParseAcme`, `dedupSorted`). */
module Acme {
  import opened Wrappers
  import opened Text
  import opened Sorting

  /** File contents and object bodies. */
  type Bytes = string

  /** One issued certificate; `certificate` and `key` are base64 text. */
  datatype AcmeCertificate = AcmeCertificate(main: string, sans: seq<string>, certificate: string, key: string)

  /** Resolver name to the certificates it has issued. */
  type AcmeFile = map<string, seq<AcmeCertificate>>

  datatype RenderedCert = RenderedCert(main: string, names: seq<string>, cert: Bytes, key: Bytes)

  datatype ParseError =
    | BadJson
    | BadCertificate(main: string, resolver: string)
    | BadKey(main: string, resolver: string)

  /** json.Unmarshal into an AcmeFile and base64 decoding, left uninterpreted. */
  datatype Codec = Codec(unmarshal: Bytes -> Option<AcmeFile>, decode: string -> Option<Bytes>)

  // ----- dedupSorted

  ghost function NameSet(names: seq<string>): set<string> {
    set x | x in names && Trim(x) != "" :: Trim(x)
  }

  method DedupSorted(names: seq<string>) returns (out: seq<string>)
    ensures out == SortedSet(NameSet(names))
  {
    var seen: set<string> := {};
    out := [];
    for i := 0 to |names|
      invariant seen == NameSet(names[..i])
      invariant Lists(out, seen) && Distinct(out)
    {
      assert names[..i + 1] == names[..i] + [names[i]];
      var s := Trim(names[i]);
      if s == "" || s in seen {
        continue;
      }
      seen := seen + {s};
      out := out + [s];
    }
    assert names[..|names|] == names;
    SortStringsCanonical(out, seen);
    out := Sort(out, (x: string) => x);
  }

  // ----- one entry

  predicate Usable(c: AcmeCertificate) {
    Trim(c.main) != "" && c.certificate != "" && c.key != ""
  }

  predicate Decodes(codec: Codec, c: AcmeCertificate) {
    codec.decode(c.certificate).Some? && codec.decode(c.key).Some?
  }

  ghost function RenderedOf(codec: Codec, c: AcmeCertificate): RenderedCert
    requires Decodes(codec, c)
  {
    var main := Trim(c.main);
    RenderedCert(main, SortedSet(NameSet([main] + c.sans)), codec.decode(c.certificate).value, codec.decode(c.key).value)
  }

  type CertMap = map<string, RenderedCert>

  ghost function AddEntry(codec: Codec, acc: CertMap, resolver: string, c: AcmeCertificate): Result<CertMap, ParseError> {
    var main := Trim(c.main);
    if !Usable(c) then Success(acc)
    else if codec.decode(c.certificate).None? then Failure(BadCertificate(main, resolver))
    else if codec.decode(c.key).None? then Failure(BadKey(main, resolver))
    else Success(acc[main := RenderedOf(codec, c)])
  }

  // ----- the walk, as a fold over the entries met so far

  ghost function WalkResolver(codec: Codec, acc: CertMap, resolver: string, certs: seq<AcmeCertificate>): Result<CertMap, ParseError>
    decreases |certs|
  {
    if certs == [] then
      Success(acc)
    else
      var before := WalkResolver(codec, acc, resolver, certs[..|certs| - 1]);
      if before.Failure? then before else AddEntry(codec, before.value, resolver, certs[|certs| - 1])
  }

  ghost function WalkFile(codec: Codec, f: AcmeFile, names: seq<string>): Result<CertMap, ParseError>
    requires forall n | n in names :: n in f
    decreases |names|
  {
    if names == [] then
      Success(map[])
    else
      var before := WalkFile(codec, f, names[..|names| - 1]);
      var last := names[|names| - 1];
      if before.Failure? then before else WalkResolver(codec, before.value, last, f[last])
  }

  /** The certificates of a map, in increasing order of their main domain. */
  ghost function Listed(byMain: CertMap): seq<RenderedCert> {
    var mains := SortedSet(byMain.Keys);
    seq(|mains|, i requires 0 <= i < |mains| => assert mains[i] in mains; byMain[mains[i]])
  }

  ghost function Parse(codec: Codec, raw: Bytes): Result<seq<RenderedCert>, ParseError> {
    match codec.unmarshal(raw)
    case None => Failure(BadJson)
    case Some(f) =>
      match WalkFile(codec, f, SortedSet(f.Keys))
      case Failure(e) => Failure(e)
      case Success(byMain) => Success(Listed(byMain))
  }

  /** `for k := range m`: the keys of a map in whatever order the runtime picks. */
  method MapKeys<V>(m: map<string, V>) returns (keys: seq<string>)
    ensures Distinct(keys) && Lists(keys, m.Keys)
  {
    keys := [];
    var rest := m.Keys;
    while rest != {}
      invariant rest <= m.Keys
      invariant Distinct(keys) && Lists(keys, m.Keys - rest)
      decreases rest
    {
      var k :| k in rest;
      rest := rest - {k};
      keys := keys + [k];
    }
  }

  predicate KeyedByMain(byMain: CertMap) {
    forall m | m in byMain :: byMain[m].main == m
  }

  /** The values of `byMain`, collected in map order and sorted by main domain. */
  method SortedCerts(byMain: CertMap) returns (out: seq<RenderedCert>)
    requires KeyedByMain(byMain)
    ensures out == Listed(byMain)
  {
    var mains := MapKeys(byMain);
    out := [];
    for i := 0 to |mains|
      invariant |out| == i
      invariant forall j | 0 <= j < i :: mains[j] in mains && out[j] == byMain[mains[j]]
    {
      assert mains[i] in mains;
      out := out + [byMain[mains[i]]];
    }
    SortedIsListed(byMain, mains, out);
    out := Sort(out, (c: RenderedCert) => c.main);
  }

  /** MapKeys followed by sort.Strings. */
  method SortedKeys<V>(m: map<string, V>) returns (keys: seq<string>)
    ensures keys == SortedSet(m.Keys) && Distinct(keys)
  {
    keys := MapKeys(m);
    SortStringsCanonical(keys, m.Keys);
    SortKeepsElements(keys, (x: string) => x);
    keys := Sort(keys, (x: string) => x);
  }

  /** The inner loop: one resolver's certificates go into `byMain`, later ones replacing earlier ones. */
  method AddResolver(codec: Codec, acc: CertMap, name: string, certs: seq<AcmeCertificate>)
    returns (r: Result<CertMap, ParseError>)
    requires KeyedByMain(acc)
    ensures r == WalkResolver(codec, acc, name, certs)
    ensures r.Success? ==> KeyedByMain(r.value)
  {
    var byMain := acc;
    for k := 0 to |certs|
      invariant WalkResolver(codec, acc, name, certs[..k]) == Success(byMain)
      invariant KeyedByMain(byMain)
    {
      var c := certs[k];
      assert certs[..k + 1][..k] == certs[..k];
      var main := Trim(c.main);
      if main == "" || c.certificate == "" || c.key == "" {
        continue;
      }
      var cert := codec.decode(c.certificate);
      if cert.None? {
        ResolverFailureSticks(codec, acc, name, certs, k + 1);
        return Failure(BadCertificate(main, name));
      }
      var key := codec.decode(c.key);
      if key.None? {
        ResolverFailureSticks(codec, acc, name, certs, k + 1);
        return Failure(BadKey(main, name));
      }
      var names := DedupSorted([main] + c.sans);
      byMain := byMain[main := RenderedCert(main, names, cert.value, key.value)];
    }
    assert certs[..|certs|] == certs;
    r := Success(byMain);
  }

  method ParseAcme(codec: Codec, raw: Bytes) returns (r: Result<seq<RenderedCert>, ParseError>)
    ensures r == Parse(codec, raw)
  {
    var decoded := codec.unmarshal(raw);
    if decoded.None? {
      return Failure(BadJson);
    }
    var f := decoded.value;
    var byMain: CertMap := map[];

    var resolverNames := SortedKeys(f);
    for n := 0 to |resolverNames|
      invariant WalkFile(codec, f, resolverNames[..n]) == Success(byMain)
      invariant KeyedByMain(byMain)
    {
      var name := resolverNames[n];
      FileStep(codec, f, resolverNames, n);
      var walked := AddResolver(codec, byMain, name, f[name]);
      if walked.Failure? {
        return Failure(walked.error);
      }
      byMain := walked.value;
    }
    assert resolverNames[..|resolverNames|] == resolverNames;
    var out := SortedCerts(byMain);
    r := Success(out);
  }

  lemma FileStep(codec: Codec, f: AcmeFile, names: seq<string>, n: nat)
    requires (forall x | x in names :: x in f) && n < |names| && WalkFile(codec, f, names[..n]).Success?
    ensures names[n] in f
    ensures var walked := WalkResolver(codec, WalkFile(codec, f, names[..n]).value, names[n], f[names[n]]);
      WalkFile(codec, f, names[..n + 1]) == walked && (walked.Failure? ==> WalkFile(codec, f, names) == walked)
  {
    assert names[n] in names;
    assert names[..n + 1][..n] == names[..n];
    if WalkFile(codec, f, names[..n + 1]).Failure? {
      FileFailureSticks(codec, f, names, n + 1);
    }
  }

  /** The error of the first bad entry is the error of the whole walk. */
  lemma {:induction false} ResolverFailureSticks(codec: Codec, acc: CertMap, name: string, certs: seq<AcmeCertificate>, k: nat)
    requires k <= |certs| && WalkResolver(codec, acc, name, certs[..k]).Failure?
    ensures WalkResolver(codec, acc, name, certs) == WalkResolver(codec, acc, name, certs[..k])
    decreases |certs| - k
  {
    if k < |certs| {
      assert certs[..k + 1][..k] == certs[..k];
      ResolverFailureSticks(codec, acc, name, certs, k + 1);
    } else {
      assert certs[..k] == certs;
    }
  }

  lemma {:induction false} FileFailureSticks(codec: Codec, f: AcmeFile, names: seq<string>, n: nat)
    requires forall x | x in names :: x in f
    requires n <= |names| && WalkFile(codec, f, names[..n]).Failure?
    ensures WalkFile(codec, f, names) == WalkFile(codec, f, names[..n])
    decreases |names| - n
  {
    if n < |names| {
      assert names[..n + 1][..n] == names[..n];
      FileFailureSticks(codec, f, names, n + 1);
    } else {
      assert names[..n] == names;
    }
  }

  lemma SortedIsListed(byMain: CertMap, mains: seq<string>, out: seq<RenderedCert>)
    requires Distinct(mains) && Lists(mains, byMain.Keys)
    requires KeyedByMain(byMain)
    requires |out| == |mains| && forall j | 0 <= j < |out| :: mains[j] in mains && out[j] == byMain[mains[j]]
    ensures Sort(out, (c: RenderedCert) => c.main) == Listed(byMain)
  {
    var key := (c: RenderedCert) => c.main;
    SortKeepsElements(out, key);
    var r := Sort(out, key);
    forall c | c in r ensures c.main in byMain && c == byMain[c.main] {
      assert c in out;
      var j :| 0 <= j < |out| && out[j] == c;
      assert mains[j] in byMain.Keys;
    }
    forall m | m in byMain ensures byMain[m] in r {
      assert m in mains;
      var j :| 0 <= j < |mains| && mains[j] == m;
      assert out[j] in out;
    }
    SortedValuesAreListed(byMain, r, key);
  }

  lemma SortedValuesAreListed(byMain: CertMap, r: seq<RenderedCert>, key: RenderedCert -> string)
    requires KeyedByMain(byMain) && Distinct(r) && SortedBy(r, key)
    requires forall c :: key(c) == c.main
    requires forall c | c in r :: c.main in byMain && c == byMain[c.main]
    requires forall m | m in byMain :: byMain[m] in r
    ensures r == Listed(byMain)
  {
    var ks := seq(|r|, i requires 0 <= i < |r| => r[i].main);
    forall i, j | 0 <= i < j < |ks| ensures Lt(ks[i], ks[j]) {
      LtTotal(ks[i], ks[j]);
      assert r[i] in r && r[j] in r && !Lt(key(r[j]), key(r[i]));
    }
    forall m | m in ks ensures m in byMain.Keys {
      var i :| 0 <= i < |ks| && ks[i] == m;
      assert r[i] in r;
    }
    forall m | m in byMain.Keys ensures m in ks {
      var i :| 0 <= i < |r| && r[i] == byMain[m];
      assert ks[i] == m;
    }
    SortedSetUnique(ks, byMain.Keys);
    forall i | 0 <= i < |r| ensures r[i] == byMain[ks[i]] {
      assert r[i] in r;
    }
  }
}
