/** The bytes of tls.yml decide which stems it lists, whatever the path of its directory. */
module IndexIdentity {
  import opened Acme
  import opened Slug
  import opened IndexFile
  import opened Render
  import opened RenderSafety

  ghost predicate EntriesFor(liveDir: string, entries: seq<Entry>, stems: seq<string>) {
    |entries| == |stems| && forall i | 0 <= i < |stems| :: entries[i] == EntryOf(liveDir, stems[i]) && AllSafe(stems[i])
  }

  /** Everything before the file name, the name's line, and the rest. */
  lemma EntryStarts(liveDir: string, stem: string, rest: string) returns (tail: string)
    ensures EntryText(EntryOf(liveDir, stem)) + rest == (CERT_PREFIX + Join(liveDir, "")) + (CertName(stem) + "\n" + tail)
  {
    tail := (KEY_PREFIX + Join(liveDir, KeyName(stem))) + "\n" + rest;
    EntryJoin(CERT_PREFIX + Join(liveDir, CertName(stem)), KEY_PREFIX + Join(liveDir, KeyName(stem)), rest);
    SplitPath(CERT_PREFIX, liveDir, CertName(stem), tail);
  }

  lemma SplitPath(prefix: string, dir: string, name: string, tail: string)
    ensures (prefix + Join(dir, name)) + "\n" + tail == (prefix + Join(dir, "")) + (name + "\n" + tail)
  {
    assert prefix + Join(dir, name) == (prefix + Join(dir, "")) + name;
  }

  lemma SafeNameOneLine(stem: string)
    requires AllSafe(stem)
    ensures OneLine(CertName(stem))
  {
    assert OneLine(stem);
  }

  lemma SameFirstStem(liveDir: string, a: string, b: string, ra: string, rb: string)
    requires AllSafe(a) && AllSafe(b)
    requires EntryText(EntryOf(liveDir, a)) + ra == EntryText(EntryOf(liveDir, b)) + rb
    ensures a == b && ra == rb
  {
    hide EntryText, EntryOf;
    var ta := EntryStarts(liveDir, a, ra);
    var tb := EntryStarts(liveDir, b, rb);
    var prefix, xa, xb := CERT_PREFIX + Join(liveDir, ""), CertName(a) + "\n" + ta, CertName(b) + "\n" + tb;
    assert (prefix + xa)[|prefix|..] == xa && (prefix + xb)[|prefix|..] == xb;
    SafeNameOneLine(a);
    SafeNameOneLine(b);
    LineEndIs(CertName(a), ta);
    LineEndIs(CertName(b), tb);
    assert xa[..|CertName(a)|] == CertName(a) && xb[..|CertName(b)|] == CertName(b);
    ExtensionsDiffer(a, b);
    var e := EntryText(EntryOf(liveDir, a));
    assert (e + ra)[|e|..] == ra && (e + rb)[|e|..] == rb;
  }

  lemma {:induction false} SameEntriesSameStems(liveDir: string, ea: seq<Entry>, a: seq<string>, eb: seq<Entry>, b: seq<string>)
    requires EntriesFor(liveDir, ea, a) && EntriesFor(liveDir, eb, b) && EntriesText(ea) == EntriesText(eb)
    ensures a == b
    decreases |a|
  {
    hide EntryText, EntryOf;
    if a != [] { EntriesTextFront(ea); }
    if b != [] { EntriesTextFront(eb); }
    EntryNotEmpty();
    if a != [] && b != [] {
      SameFirstStem(liveDir, a[0], b[0], EntriesText(ea[1..]), EntriesText(eb[1..]));
      SameEntriesSameStems(liveDir, ea[1..], a[1..], eb[1..], b[1..]);
      assert a == [a[0]] + a[1..] && b == [b[0]] + b[1..];
    }
  }

  lemma EntryNotEmpty()
    ensures forall e :: |EntryText(e)| > 0
  {
  }

  /** What follows the fixed head of an index. */
  function IndexTail(entries: seq<Entry>): string {
    (if entries == [] then NO_CERTIFICATES else CERTIFICATES) + "\n" + EntriesText(entries)
  }

  lemma IndexIsHeadAndTail(entries: seq<Entry>)
    ensures IndexText(entries) == (TITLE + "\n" + ("tls:" + "\n")) + IndexTail(entries)
  {
    var tail := IndexTail(entries);
    assert TITLE + "\n" + ("tls:" + "\n" + tail) == (TITLE + "\n" + ("tls:" + "\n")) + tail;
  }

  lemma SameIndexSameEntries(a: seq<Entry>, b: seq<Entry>)
    requires IndexText(a) == IndexText(b)
    ensures (a == [] <==> b == []) && EntriesText(a) == EntriesText(b)
  {
    hide IndexText, EntriesText;
    IndexIsHeadAndTail(a);
    IndexIsHeadAndTail(b);
    var head := TITLE + "\n" + ("tls:" + "\n");
    var ta, tb := IndexTail(a), IndexTail(b);
    assert (head + ta)[|head|..] == ta && (head + tb)[|head|..] == tb;
    TagsOneLine();
    var la, lb := if a == [] then NO_CERTIFICATES else CERTIFICATES, if b == [] then NO_CERTIFICATES else CERTIFICATES;
    LineEndIs(la, EntriesText(a));
    LineEndIs(lb, EntriesText(b));
    assert |NO_CERTIFICATES| != |CERTIFICATES|;
    assert ta[|la| + 1..] == EntriesText(a) && tb[|lb| + 1..] == EntriesText(b);
  }

  /** Certificate lists with the same index have the same stems, whatever the directory. */
  lemma SameIndexSameStems(liveDir: string, a: seq<RenderedCert>, b: seq<RenderedCert>)
    requires IndexText(Entries(liveDir, a)) == IndexText(Entries(liveDir, b))
    ensures Stems(a) == Stems(b)
  {
    hide IndexText, Stems, EntriesText;
    SameIndexSameEntries(Entries(liveDir, a), Entries(liveDir, b));
    EntriesForCerts(liveDir, a);
    EntriesForCerts(liveDir, b);
    SameEntriesSameStems(liveDir, Entries(liveDir, a), Stems(a), Entries(liveDir, b), Stems(b));
  }

  lemma EntriesForCerts(liveDir: string, certs: seq<RenderedCert>)
    ensures EntriesFor(liveDir, Entries(liveDir, certs), Stems(certs))
  {
    EntriesAt(liveDir, Stems(certs), |certs|);
    forall i | 0 <= i < |certs| ensures AllSafe(Stems(certs)[i]) { StemIsSafe(certs, i); }
  }
}
