/** The row filters of the three readers of CsvParseAndMergeService: which rows they
    keep, which records they build, and which rows make them throw. */
module Readers {
  import opened Wrappers
  import opened JavaLong
  import opened Rows
  import opened Entities

  // ---------------------------------------------------------------- sentences

  predicate IsKeptLang(lang: string) {
    lang == "vie" || lang == "eng"
  }

  /** A sentence row whose language field is one the merge uses. */
  predicate HasKeptLang(row: Row) {
    |row| >= 2 && IsKeptLang(row[1])
  }

  /** A sentence row the reader gets through without an exception: the language field
      exists, and a kept row also has a parsable id and a text field. The id of a
      discarded row is never parsed. */
  predicate SentenceRowReadable(row: Row) {
    |row| >= 2 && (IsKeptLang(row[1]) ==> ParseLong(row[0]).Some? && |row| >= 3)
  }

  /** One pass of the sentence reader's loop. */
  function SentenceStep(row: Row): (r: Result<Option<Sentence>, Fault>)
    ensures r.Ok? <==> SentenceRowReadable(row)
    ensures r.Ok? ==> (r.value.Some? <==> HasKeptLang(row))
    ensures r.Ok? && r.value.Some? ==>
      var s := r.value.value;
      ParseLong(row[0]) == Some(s.id) && s.lang == row[1] && s.text == row[2]
  {
    if |row| < 2 then Fail(IndexOutOfBounds(1))
    else if row[1] == "vie" || row[1] == "eng" then
      match ParseLong(row[0])
      case None => Fail(NumberFormat(row[0]))
      case Some(id) =>
        if |row| < 3 then Fail(IndexOutOfBounds(2)) else Ok(Some(Sentence(id, row[1], row[2])))
    else Ok(None)
  }

  function SentencesOf(rows: seq<Row>): Result<seq<Sentence>, Fault> {
    Collect(rows, SentenceStep)
  }

  /** `readSentencesFromCSV` once the file has been split into rows. */
  method ReadSentences(rows: seq<Row>) returns (r: Result<seq<Sentence>, Fault>)
    ensures r == SentencesOf(rows)
  {
    var sentences: seq<Sentence> := [];
    for i := 0 to |rows|
      invariant SentencesOf(rows[..i]) == Ok(sentences)
    {
      var row := rows[i];
      assert rows[..i + 1][..i] == rows[..i];
      if |row| < 2 {
        CollectPrefixFail(rows, i + 1, SentenceStep);
        return Fail(IndexOutOfBounds(1));
      }
      if row[1] == "vie" || row[1] == "eng" {
        var id := ParseLong(row[0]);
        if id.None? {
          CollectPrefixFail(rows, i + 1, SentenceStep);
          return Fail(NumberFormat(row[0]));
        }
        if |row| < 3 {
          CollectPrefixFail(rows, i + 1, SentenceStep);
          return Fail(IndexOutOfBounds(2));
        }
        sentences := sentences + [Sentence(id.value, row[1], row[2])];
      }
    }
    assert rows[..|rows|] == rows;
    return Ok(sentences);
  }

  /** The sentence reader succeeds iff every row is readable; it then keeps exactly the
      "eng" and "vie" rows, in input order, the k-th sentence built from fields 0, 1
      and 2 of the k-th kept row. No other language survives. */
  lemma SentencesOfMeaning(rows: seq<Row>)
    ensures SentencesOf(rows).Ok? <==> forall i | 0 <= i < |rows| :: SentenceRowReadable(rows[i])
    ensures SentencesOf(rows).Ok? ==>
      var out, kept := SentencesOf(rows).value, Filter(rows, HasKeptLang);
      && |out| == |kept|
      && (forall k | 0 <= k < |kept| ::
            |kept[k]| >= 3 && ParseLong(kept[k][0]) == Some(out[k].id)
            && out[k].lang == kept[k][1] && out[k].text == kept[k][2])
      && forall s | s in out :: IsKeptLang(s.lang)
  {
    CollectFails(rows, SentenceStep);
    if SentencesOf(rows).Ok? {
      CollectKeeps(rows, SentenceStep, HasKeptLang);
      var out, kept := SentencesOf(rows).value, Filter(rows, HasKeptLang);
      forall k | 0 <= k < |kept| ensures HasKeptLang(kept[k]) {
        FilterCount(rows, HasKeptLang, kept[k]);
      }
    }
  }

  // ---------------------------------------------------------- ids of sentences

  /** `sentences.stream().map(Sentence::getSentenceId).toList()`. */
  function Ids(sentences: seq<Sentence>): (r: seq<int>)
    ensures |r| == |sentences|
    ensures forall i | 0 <= i < |r| :: r[i] == sentences[i].id
    decreases |sentences|
  {
    if sentences == [] then []
    else Ids(sentences[..|sentences| - 1]) + [sentences[|sentences| - 1].id]
  }

  /** A row whose field 0 parses to one of `ids`. */
  predicate HasKnownId(row: Row, ids: seq<int>) {
    |row| >= 1 && ParseLong(row[0]).Some? && ParseLong(row[0]).value in ids
  }

  function IsKnownFor(ids: seq<int>): Row -> bool {
    row => HasKnownId(row, ids)
  }

  /** The rows whose field-0 id is one of `ids`, in input order. */
  function KnownIdRows(rows: seq<Row>, ids: seq<int>): seq<Row> {
    Filter(rows, IsKnownFor(ids))
  }

  lemma KnownIdRowsMember(rows: seq<Row>, ids: seq<int>, row: Row)
    ensures row in KnownIdRows(rows, ids) <==> row in rows && HasKnownId(row, ids)
  {
    FilterCount(rows, IsKnownFor(ids), row);
  }

  // -------------------------------------------------------------------- links

  /** A link row the reader gets through: field 0 always parses, and a row whose
      source id is known also has a parsable field 1. */
  predicate LinkRowReadable(row: Row, ids: seq<int>) {
    && |row| >= 1
    && ParseLong(row[0]).Some?
    && (ParseLong(row[0]).value in ids ==> |row| >= 2 && ParseLong(row[1]).Some?)
  }

  /** One pass of the link reader's loop: only the source id is checked. */
  function LinkStep(row: Row, ids: seq<int>): (r: Result<Option<Link>, Fault>)
    ensures r.Ok? <==> LinkRowReadable(row, ids)
    ensures r.Ok? ==> (r.value.Some? <==> HasKnownId(row, ids))
    ensures r.Ok? && r.value.Some? ==>
      ParseLong(row[0]) == Some(r.value.value.sentenceId) && ParseLong(row[1]) == Some(r.value.value.translationId)
  {
    if |row| < 1 then Fail(IndexOutOfBounds(0))
    else match ParseLong(row[0])
      case None => Fail(NumberFormat(row[0]))
      case Some(source) =>
        if source !in ids then Ok(None)
        else if |row| < 2 then Fail(IndexOutOfBounds(1))
        else match ParseLong(row[1])
          case None => Fail(NumberFormat(row[1]))
          case Some(target) => Ok(Some(Link(source, target)))
  }

  /** The link reader's loop body for a fixed list of known ids. */
  function LinkStepFor(ids: seq<int>): Row -> Result<Option<Link>, Fault> {
    row => LinkStep(row, ids)
  }

  function LinksOf(rows: seq<Row>, ids: seq<int>): Result<seq<Link>, Fault> {
    Collect(rows, LinkStepFor(ids))
  }

  /** `readLinksFileNameFromCSV(sentences)` once the file has been split into rows. */
  method ReadLinks(rows: seq<Row>, sentences: seq<Sentence>) returns (r: Result<seq<Link>, Fault>)
    ensures r == LinksOf(rows, Ids(sentences))
  {
    var ids := Ids(sentences);
    var links: seq<Link> := [];
    for i := 0 to |rows|
      invariant LinksOf(rows[..i], ids) == Ok(links)
    {
      var row := rows[i];
      assert rows[..i + 1][..i] == rows[..i];
      if |row| < 1 {
        CollectPrefixFail(rows, i + 1, LinkStepFor(ids));
        return Fail(IndexOutOfBounds(0));
      }
      var source := ParseLong(row[0]);
      if source.None? {
        CollectPrefixFail(rows, i + 1, LinkStepFor(ids));
        return Fail(NumberFormat(row[0]));
      }
      if source.value in ids {
        if |row| < 2 {
          CollectPrefixFail(rows, i + 1, LinkStepFor(ids));
          return Fail(IndexOutOfBounds(1));
        }
        var target := ParseLong(row[1]);
        if target.None? {
          CollectPrefixFail(rows, i + 1, LinkStepFor(ids));
          return Fail(NumberFormat(row[1]));
        }
        links := links + [Link(source.value, target.value)];
      }
    }
    assert rows[..|rows|] == rows;
    return Ok(links);
  }

  /** The link reader succeeds iff every row is readable; it then keeps exactly the rows
      whose source id (field 0) is a known sentence id, in input order, the k-th link
      parsed from fields 0 and 1 of the k-th kept row. The target id is not checked. */
  lemma LinksOfMeaning(rows: seq<Row>, ids: seq<int>)
    ensures LinksOf(rows, ids).Ok? <==> forall i | 0 <= i < |rows| :: LinkRowReadable(rows[i], ids)
    ensures LinksOf(rows, ids).Ok? ==>
      var out, kept := LinksOf(rows, ids).value, KnownIdRows(rows, ids);
      && |out| == |kept|
      && forall k | 0 <= k < |kept| ::
           |kept[k]| >= 2 && ParseLong(kept[k][0]) == Some(out[k].sentenceId)
           && ParseLong(kept[k][1]) == Some(out[k].translationId)
  {
    CollectFails(rows, LinkStepFor(ids));
    if LinksOf(rows, ids).Ok? {
      CollectKeeps(rows, LinkStepFor(ids), IsKnownFor(ids));
      var kept := KnownIdRows(rows, ids);
      forall k | 0 <= k < |kept| ensures HasKnownId(kept[k], ids) {
        KnownIdRowsMember(rows, ids, kept[k]);
      }
    }
  }

  // -------------------------------------------------------------------- audio

  /** An audio row the reader gets through: field 0 always parses, and a row whose id is
      known also has the user, license and attribution fields. */
  predicate AudioRowReadable(row: Row, ids: seq<int>) {
    && |row| >= 1
    && ParseLong(row[0]).Some?
    && (ParseLong(row[0]).value in ids ==> |row| >= 4)
  }

  /** One pass of the audio reader's loop. Fields 1, 2 and 3 are read in that order, so
      a short kept row fails at the first index it lacks. */
  function AudioStep(row: Row, ids: seq<int>): (r: Result<Option<SentenceWithAudio>, Fault>)
    ensures r.Ok? <==> AudioRowReadable(row, ids)
    ensures r.Ok? ==> (r.value.Some? <==> HasKnownId(row, ids))
    ensures r.Ok? && r.value.Some? ==>
      var a := r.value.value;
      ParseLong(row[0]) == Some(a.sentenceId)
      && a.userName == row[1] && a.license == row[2] && a.attributionUrl == row[3]
  {
    if |row| < 1 then Fail(IndexOutOfBounds(0))
    else match ParseLong(row[0])
      case None => Fail(NumberFormat(row[0]))
      case Some(id) =>
        if id !in ids then Ok(None)
        else if |row| < 4 then Fail(IndexOutOfBounds(|row|))
        else Ok(Some(SentenceWithAudio(id, row[1], row[2], row[3])))
  }

  function AudioStepFor(ids: seq<int>): Row -> Result<Option<SentenceWithAudio>, Fault> {
    row => AudioStep(row, ids)
  }

  function AudioOf(rows: seq<Row>, ids: seq<int>): Result<seq<SentenceWithAudio>, Fault> {
    Collect(rows, AudioStepFor(ids))
  }

  /** `readSentencesWithAudioFilenameFromCSV(sentences)` once the file has been split into rows. */
  method ReadAudio(rows: seq<Row>, sentences: seq<Sentence>) returns (r: Result<seq<SentenceWithAudio>, Fault>)
    ensures r == AudioOf(rows, Ids(sentences))
  {
    var ids := Ids(sentences);
    var audio: seq<SentenceWithAudio> := [];
    for i := 0 to |rows|
      invariant AudioOf(rows[..i], ids) == Ok(audio)
    {
      var row := rows[i];
      assert rows[..i + 1][..i] == rows[..i];
      if |row| < 1 {
        CollectPrefixFail(rows, i + 1, AudioStepFor(ids));
        return Fail(IndexOutOfBounds(0));
      }
      var id := ParseLong(row[0]);
      if id.None? {
        CollectPrefixFail(rows, i + 1, AudioStepFor(ids));
        return Fail(NumberFormat(row[0]));
      }
      if id.value in ids {
        if |row| < 4 {
          CollectPrefixFail(rows, i + 1, AudioStepFor(ids));
          return Fail(IndexOutOfBounds(|row|));
        }
        audio := audio + [SentenceWithAudio(id.value, row[1], row[2], row[3])];
      }
    }
    assert rows[..|rows|] == rows;
    return Ok(audio);
  }

  /** The audio reader succeeds iff every row is readable; it then keeps exactly the rows
      whose id is a known sentence id, in input order, copying user, license and
      attribution unchanged from fields 1, 2 and 3 of the k-th kept row. */
  lemma AudioOfMeaning(rows: seq<Row>, ids: seq<int>)
    ensures AudioOf(rows, ids).Ok? <==> forall i | 0 <= i < |rows| :: AudioRowReadable(rows[i], ids)
    ensures AudioOf(rows, ids).Ok? ==>
      var out, kept := AudioOf(rows, ids).value, KnownIdRows(rows, ids);
      && |out| == |kept|
      && forall k | 0 <= k < |kept| ::
           |kept[k]| >= 4 && ParseLong(kept[k][0]) == Some(out[k].sentenceId)
           && out[k].userName == kept[k][1] && out[k].license == kept[k][2]
           && out[k].attributionUrl == kept[k][3]
  {
    CollectFails(rows, AudioStepFor(ids));
    if AudioOf(rows, ids).Ok? {
      CollectKeeps(rows, AudioStepFor(ids), IsKnownFor(ids));
      var kept := KnownIdRows(rows, ids);
      forall k | 0 <= k < |kept| ensures HasKnownId(kept[k], ids) {
        KnownIdRowsMember(rows, ids, kept[k]);
      }
    }
  }

  /** Every link read comes from a link row with those two ids. */
  lemma LinkRowOf(rows: seq<Row>, ids: seq<int>, link: Link)
    requires LinksOf(rows, ids).Ok? && link in LinksOf(rows, ids).value
    ensures exists k | 0 <= k < |rows| ::
      |rows[k]| >= 2 && ParseLong(rows[k][0]) == Some(link.sentenceId) && ParseLong(rows[k][1]) == Some(link.translationId)
  {
    CollectMember(rows, LinkStepFor(ids), link);
    var row :| row in rows && LinkStep(row, ids) == Ok(Some(link));
    var k :| 0 <= k < |rows| && rows[k] == row;
  }

  /** Every link row with a known source id is read, as the link between its two ids. */
  lemma LinkOfRow(rows: seq<Row>, ids: seq<int>, k: nat)
    requires LinksOf(rows, ids).Ok? && k < |rows| && HasKnownId(rows[k], ids)
    ensures |rows[k]| >= 2 && ParseLong(rows[k][1]).Some?
    ensures Link(ParseLong(rows[k][0]).value, ParseLong(rows[k][1]).value) in LinksOf(rows, ids).value
  {
    CollectFails(rows, LinkStepFor(ids));
    assert LinkStepFor(ids)(rows[k]).Ok?;
    CollectYields(rows, LinkStepFor(ids), k);
  }

  /** Every audio record comes from an audio row with that id and license. */
  lemma AudioRowOf(rows: seq<Row>, ids: seq<int>, a: SentenceWithAudio)
    requires AudioOf(rows, ids).Ok? && a in AudioOf(rows, ids).value
    ensures exists k | 0 <= k < |rows| ::
      |rows[k]| >= 4 && ParseLong(rows[k][0]) == Some(a.sentenceId) && rows[k][2] == a.license
  {
    CollectMember(rows, AudioStepFor(ids), a);
    var row :| row in rows && AudioStep(row, ids) == Ok(Some(a));
    var k :| 0 <= k < |rows| && rows[k] == row;
  }

  /** Every audio row with a known id is read, keeping its license. */
  lemma AudioOfRow(rows: seq<Row>, ids: seq<int>, k: nat)
    requires AudioOf(rows, ids).Ok? && k < |rows| && HasKnownId(rows[k], ids)
    ensures |rows[k]| >= 4
    ensures exists a | a in AudioOf(rows, ids).value :: Some(a.sentenceId) == ParseLong(rows[k][0]) && a.license == rows[k][2]
  {
    CollectFails(rows, AudioStepFor(ids));
    assert AudioStepFor(ids)(rows[k]).Ok?;
    CollectYields(rows, AudioStepFor(ids), k);
  }

  /** Every "eng" or "vie" sentence row is read, as the sentence of its three fields. */
  lemma SentenceOfRow(rows: seq<Row>, i: nat)
    requires SentencesOf(rows).Ok? && i < |rows| && HasKeptLang(rows[i])
    ensures |rows[i]| >= 3 && ParseLong(rows[i][0]).Some?
    ensures Sentence(ParseLong(rows[i][0]).value, rows[i][1], rows[i][2]) in SentencesOf(rows).value
  {
    CollectFails(rows, SentenceStep);
    assert SentenceStep(rows[i]).Ok?;
    CollectYields(rows, SentenceStep, i);
  }
}
