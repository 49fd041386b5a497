/** The text of tls.yml: the printer in `Render`, and an independent line-based reader. */
module IndexFile {
  import opened Wrappers

  /** One (certFile, keyFile) pair of absolute paths. */
  datatype Entry = Entry(cert: string, key: string)

  const TITLE := "# generated by certific " + "\U{2014} do not edit by hand"
  const NO_CERTIFICATES := "  certificates: []"
  const CERTIFICATES := "  certificates:"
  const CERT_PREFIX := "    - certFile: "
  const KEY_PREFIX := "      keyFile: "

  function EntryText(e: Entry): string {
    (CERT_PREFIX + e.cert) + "\n" + ((KEY_PREFIX + e.key) + "\n")
  }

  function EntriesText(entries: seq<Entry>): string {
    if entries == [] then ""
    else EntriesText(entries[..|entries| - 1]) + EntryText(entries[|entries| - 1])
  }

  function IndexText(entries: seq<Entry>): string {
    TITLE + "\n" + ("tls:" + "\n" +
      ((if entries == [] then NO_CERTIFICATES else CERTIFICATES) + "\n" + EntriesText(entries)))
  }

  /** The string builder of Render's second step. */
  method BuildIndex(entries: seq<Entry>) returns (b: string)
    ensures b == IndexText(entries)
  {
    b := TITLE + "\n";
    b := b + ("tls:" + "\n");
    ghost var head := b;
    if |entries| == 0 {
      b := b + (NO_CERTIFICATES + "\n");
      JoinText(TITLE, "tls:", NO_CERTIFICATES, "");
    } else {
      b := b + (CERTIFICATES + "\n");
      head := b;
      for i := 0 to |entries|
        invariant b == head + EntriesText(entries[..i])
      {
        var e := entries[i];
        assert entries[..i + 1][..i] == entries[..i];
        b := AppendEntry(head, b, EntriesText(entries[..i]), e);
      }
      assert entries[..|entries|] == entries;
      JoinText(TITLE, "tls:", CERTIFICATES, EntriesText(entries));
    }
  }

  /** The two Fprintf calls of the loop body. */
  method AppendEntry(ghost head: string, b: string, ghost done: string, e: Entry) returns (b': string)
    requires b == head + done
    ensures b' == head + (done + EntryText(e))
  {
    b' := b + (CERT_PREFIX + e.cert + "\n");
    b' := b' + (KEY_PREFIX + e.key + "\n");
    EntryJoin(CERT_PREFIX + e.cert, KEY_PREFIX + e.key, "");
  }

  lemma JoinText(a: string, b: string, c: string, rest: string)
    ensures a + "\n" + (b + "\n") + (c + "\n") + rest == a + "\n" + (b + "\n" + (c + "\n" + rest))
  {
  }

  lemma EntryJoin(certLine: string, keyLine: string, rest: string)
    ensures certLine + "\n" + (keyLine + "\n") + rest == certLine + "\n" + (keyLine + "\n" + rest)
  {
  }

  // ----- reading it back, by what the format says and not by what was printed

  function LineEnd(text: string): (n: nat)
    ensures n <= |text|
  {
    if text == "" || text[0] == '\n' then 0 else 1 + LineEnd(text[1..])
  }

  function Lines(text: string): seq<string>
    decreases |text|
  {
    if text == "" then []
    else
      var n := LineEnd(text);
      [text[..n]] + if n == |text| then [] else Lines(text[n + 1..])
  }

  function ReadEntries(lines: seq<string>): Option<seq<Entry>> {
    if lines == [] then
      Some([])
    else if |lines| >= 2 && "    - certFile: " <= lines[0] && "      keyFile: " <= lines[1] then
      match ReadEntries(lines[2..])
      case None => None
      case Some(rest) => Some([Entry(lines[0][16..], lines[1][15..])] + rest)
    else
      None
  }

  /** The pairs a tls.yml lists, or None for a text that is not of this shape. */
  function ReadIndex(text: string): Option<seq<Entry>> {
    var lines := Lines(text);
    if |lines| < 3 || !("#" <= lines[0]) || lines[1] != "tls:" then None
    else if lines[2] == "  certificates: []" && |lines| == 3 then Some([])
    else if lines[2] == "  certificates:" then ReadEntries(lines[3..])
    else None
  }

  predicate OneLine(s: string) {
    '\n' !in s
  }

  predicate OneLineEntries(entries: seq<Entry>) {
    forall e | e in entries :: OneLine(e.cert) && OneLine(e.key)
  }

  lemma {:induction false} LineEndIs(line: string, rest: string)
    requires OneLine(line)
    ensures LineEnd(line + "\n" + rest) == |line|
    decreases |line|
  {
    if line != "" {
      assert line[0] in line;
      assert (line + "\n" + rest)[1..] == line[1..] + "\n" + rest;
      assert OneLine(line[1..]) by { assert forall c | c in line[1..] :: c in line; }
      LineEndIs(line[1..], rest);
    }
  }

  lemma FirstLine(line: string, rest: string)
    requires OneLine(line)
    ensures Lines(line + "\n" + rest) == [line] + Lines(rest)
  {
    LineEndIs(line, rest);
    var text := line + "\n" + rest;
    assert text[..|line|] == line && text[|line| + 1..] == rest;
  }

  lemma {:induction false} EntriesTextFront(entries: seq<Entry>)
    requires entries != []
    ensures EntriesText(entries) == EntryText(entries[0]) + EntriesText(entries[1..])
    decreases |entries|
  {
    if |entries| > 1 {
      var init := entries[..|entries| - 1];
      EntriesTextFront(init);
      assert entries[1..][..|entries| - 2] == init[1..];
    }
  }

  lemma ReadOneEntry(e: Entry, lines: seq<string>)
    ensures ReadEntries([CERT_PREFIX + e.cert, KEY_PREFIX + e.key] + lines) ==
      match ReadEntries(lines) case None => None case Some(rest) => Some([e] + rest)
  {
    var all := [CERT_PREFIX + e.cert, KEY_PREFIX + e.key] + lines;
    assert all[2..] == lines;
    assert all[0][|CERT_PREFIX|..] == e.cert && all[1][|KEY_PREFIX|..] == e.key;
  }

  lemma EntryLines(e: Entry, rest: string)
    requires OneLine(e.cert) && OneLine(e.key)
    ensures Lines(EntryText(e) + rest) == [CERT_PREFIX + e.cert, KEY_PREFIX + e.key] + Lines(rest)
  {
    var certLine, keyLine := CERT_PREFIX + e.cert, KEY_PREFIX + e.key;
    EntryJoin(certLine, keyLine, rest);
    PrefixesOneLine();
    FirstLine(certLine, keyLine + "\n" + rest);
    FirstLine(keyLine, rest);
  }

  lemma PrefixesOneLine()
    ensures OneLine(CERT_PREFIX) && OneLine(KEY_PREFIX)
  {
  }

  lemma EntryReadsBack(e: Entry, rest: string, tail: seq<Entry>)
    requires OneLine(e.cert) && OneLine(e.key)
    requires ReadEntries(Lines(rest)) == Some(tail)
    ensures ReadEntries(Lines(EntryText(e) + rest)) == Some([e] + tail)
  {
    EntryLines(e, rest);
    ReadOneEntry(e, Lines(rest));
  }

  lemma {:induction false} ReadEntriesBack(entries: seq<Entry>)
    requires OneLineEntries(entries)
    ensures ReadEntries(Lines(EntriesText(entries))) == Some(entries)
    decreases |entries|
  {
    if entries != [] {
      EntriesTextFront(entries);
      assert entries[0] in entries;
      ReadEntriesBack(entries[1..]);
      EntryReadsBack(entries[0], EntriesText(entries[1..]), entries[1..]);
      assert entries == [entries[0]] + entries[1..];
    }
  }

  lemma TitleOneLine()
    ensures OneLine(TITLE)
  {
    var a, b := "# generated by certific ", "\U{2014} do not edit by hand";
    assert OneLine(a) && OneLine(b);
    assert TITLE == a + b;
  }

  lemma TagsOneLine()
    ensures OneLine("tls:") && OneLine(NO_CERTIFICATES) && OneLine(CERTIFICATES)
  {
  }

  lemma HeadLines(third: string, rest: string)
    requires OneLine(third)
    ensures Lines(TITLE + "\n" + ("tls:" + "\n" + (third + "\n" + rest))) == [TITLE, "tls:", third] + Lines(rest)
  {
    TitleOneLine();
    TagsOneLine();
    FirstLine(TITLE, "tls:" + "\n" + (third + "\n" + rest));
    FirstLine("tls:", third + "\n" + rest);
    FirstLine(third, rest);
  }

  lemma TitleIsComment()
    ensures "#" <= TITLE
  {
  }

  /** Reading back what was printed gives the printed pairs, in order. */
  lemma IndexRoundTrip(entries: seq<Entry>)
    requires OneLineEntries(entries)
    ensures ReadIndex(IndexText(entries)) == Some(entries)
  {
    var third := if entries == [] then NO_CERTIFICATES else CERTIFICATES;
    var rest := EntriesText(entries);
    TagsOneLine();
    TitleIsComment();
    HeadLines(third, rest);
    ReadEntriesBack(entries);
    var lines := Lines(IndexText(entries));
    assert lines[3..] == Lines(rest);
    assert lines[0] == TITLE && lines[1] == "tls:" && lines[2] == third;
    assert NO_CERTIFICATES != CERTIFICATES;
    assert entries == [] ==> |lines| == 3;
  }

  /** Two indexes with the same bytes list the same pairs. */
  lemma IndexTextInjective(a: seq<Entry>, b: seq<Entry>)
    requires OneLineEntries(a) && OneLineEntries(b)
    requires IndexText(a) == IndexText(b)
    ensures a == b
  {
    IndexRoundTrip(a);
    IndexRoundTrip(b);
  }

  /** An index of no certificates, line by line. */
  lemma EmptyIndexIs()
    ensures IndexText([]) ==
      ("# generated by certific " + "\U{2014} do not edit by hand") + "\n" + ("tls:" + "\n" + ("  certificates: []" + "\n"))
  {
    assert "  certificates: []" + "\n" + "" == "  certificates: []" + "\n";
  }
}
