/** `createRawData`: read the three relations, then join them. The first exception
    any reader throws ends the run with no result. */
module MergeService {
  import opened Wrappers
  import opened JavaLong
  import opened Rows
  import opened Entities
  import opened Readers
  import opened Join

  function RawData(sentenceRows: seq<Row>, linkRows: seq<Row>, audioRows: seq<Row>): Result<seq<Translation>, Fault> {
    var sentences :- SentencesOf(sentenceRows);
    var links :- LinksOf(linkRows, Ids(sentences));
    var audio :- AudioOf(audioRows, Ids(sentences));
    Ok(Translations(Filter(sentences, IsEnglish), Filter(sentences, IsVietnamese), links, audio))
  }

  method CreateRawData(sentenceRows: seq<Row>, linkRows: seq<Row>, audioRows: seq<Row>)
    returns (r: Result<seq<Translation>, Fault>)
    ensures r == RawData(sentenceRows, linkRows, audioRows)
  {
    var sentences :- ReadSentences(sentenceRows);
    var links :- ReadLinks(linkRows, sentences);
    var audio :- ReadAudio(audioRows, sentences);
    var translations := MergeTranslations(sentences, links, audio);
    return Ok(translations);
  }

  /** The ids the link and audio readers test against: those of the kept sentence rows. */
  lemma KnownIds(sentenceRows: seq<Row>, id: int)
    requires SentencesOf(sentenceRows).Ok?
    ensures id in Ids(SentencesOf(sentenceRows).value) <==>
      exists i | 0 <= i < |sentenceRows| :: HasKeptLang(sentenceRows[i]) && ParseLong(sentenceRows[i][0]) == Some(id)
  {
    if id in Ids(SentencesOf(sentenceRows).value) {
      KnownIdFromRow(sentenceRows, id);
    }
    if i :| 0 <= i < |sentenceRows| && HasKeptLang(sentenceRows[i]) && ParseLong(sentenceRows[i][0]) == Some(id) {
      KnownIdOfRow(sentenceRows, i);
    }
  }

  lemma KnownIdFromRow(sentenceRows: seq<Row>, id: int)
    requires SentencesOf(sentenceRows).Ok? && id in Ids(SentencesOf(sentenceRows).value)
    ensures exists i | 0 <= i < |sentenceRows| :: HasKeptLang(sentenceRows[i]) && ParseLong(sentenceRows[i][0]) == Some(id)
  {
    var sentences := SentencesOf(sentenceRows).value;
    var k :| 0 <= k < |sentences| && Ids(sentences)[k] == id;
    CollectMember(sentenceRows, SentenceStep, sentences[k]);
    var row :| row in sentenceRows && SentenceStep(row) == Ok(Some(sentences[k]));
    var i :| 0 <= i < |sentenceRows| && sentenceRows[i] == row;
    assert HasKeptLang(sentenceRows[i]) && ParseLong(sentenceRows[i][0]) == Some(id);
  }

  lemma KnownIdOfRow(sentenceRows: seq<Row>, i: nat)
    requires SentencesOf(sentenceRows).Ok? && i < |sentenceRows| && HasKeptLang(sentenceRows[i])
    ensures ParseLong(sentenceRows[i][0]).Some? && ParseLong(sentenceRows[i][0]).value in Ids(SentencesOf(sentenceRows).value)
  {
    var sentences := SentencesOf(sentenceRows).value;
    var row := sentenceRows[i];
    CollectFails(sentenceRows, SentenceStep);
    assert SentenceStep(row).Ok?;
    var s := SentenceStep(row).value.value;
    CollectMember(sentenceRows, SentenceStep, s);
    var k :| 0 <= k < |sentences| && sentences[k] == s;
    assert Ids(sentences)[k] == s.id;
  }

  /** The run fails exactly when a reader meets a row it cannot read: a kept sentence row
      with a bad id or no text, any link or audio row with a bad field 0, a known-source
      link row with a bad field 1, or a row too short for a field the reader touches. */
  lemma RawDataFailure(sentenceRows: seq<Row>, linkRows: seq<Row>, audioRows: seq<Row>)
    ensures SentencesOf(sentenceRows).Ok? <==> forall i | 0 <= i < |sentenceRows| :: SentenceRowReadable(sentenceRows[i])
    ensures RawData(sentenceRows, linkRows, audioRows).Ok? <==>
      && SentencesOf(sentenceRows).Ok?
      && var ids := Ids(SentencesOf(sentenceRows).value);
      && (forall i | 0 <= i < |linkRows| :: LinkRowReadable(linkRows[i], ids))
      && (forall i | 0 <= i < |audioRows| :: AudioRowReadable(audioRows[i], ids))
  {
    SentencesOfMeaning(sentenceRows);
    if SentencesOf(sentenceRows).Ok? {
      var ids := Ids(SentencesOf(sentenceRows).value);
      LinksOfMeaning(linkRows, ids);
      AudioOfMeaning(audioRows, ids);
    }
  }

  lemma SentenceFromRow(sentenceRows: seq<Row>, s: Sentence)
    requires SentencesOf(sentenceRows).Ok? && s in SentencesOf(sentenceRows).value
    ensures exists i | 0 <= i < |sentenceRows| ::
      |sentenceRows[i]| >= 3 && ParseLong(sentenceRows[i][0]) == Some(s.id)
      && sentenceRows[i][1] == s.lang && sentenceRows[i][2] == s.text
  {
    CollectMember(sentenceRows, SentenceStep, s);
    var row :| row in sentenceRows && SentenceStep(row) == Ok(Some(s));
    var i :| 0 <= i < |sentenceRows| && sentenceRows[i] == row;
  }

  /** Every record traces back to an "eng" sentence row for its id and text, a "vie"
      sentence row for its translated id and text, and a link row from the one id to
      the other. */
  lemma RawDataSound(sentenceRows: seq<Row>, linkRows: seq<Row>, audioRows: seq<Row>, t: Translation)
    requires RawData(sentenceRows, linkRows, audioRows).Ok?
    requires t in RawData(sentenceRows, linkRows, audioRows).value
    ensures exists i | 0 <= i < |sentenceRows| ::
      |sentenceRows[i]| >= 3 && sentenceRows[i][1] == "eng"
      && ParseLong(sentenceRows[i][0]) == Some(t.id) && sentenceRows[i][2] == t.text
    ensures exists j | 0 <= j < |sentenceRows| ::
      |sentenceRows[j]| >= 3 && sentenceRows[j][1] == "vie"
      && ParseLong(sentenceRows[j][0]) == Some(t.translateId) && sentenceRows[j][2] == t.translateText
    ensures exists k | 0 <= k < |linkRows| ::
      |linkRows[k]| >= 2 && ParseLong(linkRows[k][0]) == Some(t.id) && ParseLong(linkRows[k][1]) == Some(t.translateId)
  {
    var sentences := SentencesOf(sentenceRows).value;
    JoinSound(sentenceRows, linkRows, AudioOf(audioRows, Ids(sentences)).value, t);
  }

  lemma JoinSound(sentenceRows: seq<Row>, linkRows: seq<Row>, audio: seq<SentenceWithAudio>, t: Translation)
    requires SentencesOf(sentenceRows).Ok? && LinksOf(linkRows, Ids(SentencesOf(sentenceRows).value)).Ok?
    requires
      var sentences := SentencesOf(sentenceRows).value;
      var links := LinksOf(linkRows, Ids(sentences)).value;
      t in Translations(Filter(sentences, IsEnglish), Filter(sentences, IsVietnamese), links, audio)
    ensures exists i | 0 <= i < |sentenceRows| ::
      |sentenceRows[i]| >= 3 && sentenceRows[i][1] == "eng"
      && ParseLong(sentenceRows[i][0]) == Some(t.id) && sentenceRows[i][2] == t.text
    ensures exists j | 0 <= j < |sentenceRows| ::
      |sentenceRows[j]| >= 3 && sentenceRows[j][1] == "vie"
      && ParseLong(sentenceRows[j][0]) == Some(t.translateId) && sentenceRows[j][2] == t.translateText
    ensures exists k | 0 <= k < |linkRows| ::
      |linkRows[k]| >= 2 && ParseLong(linkRows[k][0]) == Some(t.id) && ParseLong(linkRows[k][1]) == Some(t.translateId)
  {
    var sentences := SentencesOf(sentenceRows).value;
    var ids := Ids(sentences);
    var links := LinksOf(linkRows, ids).value;
    var english, vietnamese := Filter(sentences, IsEnglish), Filter(sentences, IsVietnamese);
    TranslationsSound(english, vietnamese, links, audio, t);
    var e, v :| e in english && v in vietnamese
      && Link(e.id, v.id) in links && t == GetTranslation(e, v, AudioAvailable(audio, e.id));
    FilterCount(sentences, IsEnglish, e);
    FilterCount(sentences, IsVietnamese, v);
    SentenceFromRow(sentenceRows, e);
    SentenceFromRow(sentenceRows, v);
    LinkRowOf(linkRows, ids, Link(e.id, v.id));
  }

  /** Every "eng" sentence row, "vie" sentence row and link row between their ids yields
      a record for that pair, whatever the target id's own role in the link file. */
  lemma RawDataComplete(sentenceRows: seq<Row>, linkRows: seq<Row>, audioRows: seq<Row>, i: nat, j: nat, k: nat)
    requires RawData(sentenceRows, linkRows, audioRows).Ok?
    requires i < |sentenceRows| && j < |sentenceRows| && k < |linkRows|
    requires |sentenceRows[i]| >= 3 && sentenceRows[i][1] == "eng"
    requires |sentenceRows[j]| >= 3 && sentenceRows[j][1] == "vie"
    requires |linkRows[k]| >= 2 && ParseLong(linkRows[k][0]) == ParseLong(sentenceRows[i][0])
    requires ParseLong(linkRows[k][1]) == ParseLong(sentenceRows[j][0])
    ensures exists t | t in RawData(sentenceRows, linkRows, audioRows).value ::
      && Some(t.id) == ParseLong(sentenceRows[i][0]) && t.text == sentenceRows[i][2]
      && Some(t.translateId) == ParseLong(sentenceRows[j][0]) && t.translateText == sentenceRows[j][2]
  {
    var sentences := SentencesOf(sentenceRows).value;
    JoinComplete(sentenceRows, linkRows, AudioOf(audioRows, Ids(sentences)).value, i, j, k);
  }

  lemma JoinComplete(sentenceRows: seq<Row>, linkRows: seq<Row>, audio: seq<SentenceWithAudio>, i: nat, j: nat, k: nat)
    requires SentencesOf(sentenceRows).Ok? && LinksOf(linkRows, Ids(SentencesOf(sentenceRows).value)).Ok?
    requires i < |sentenceRows| && j < |sentenceRows| && k < |linkRows|
    requires |sentenceRows[i]| >= 3 && sentenceRows[i][1] == "eng"
    requires |sentenceRows[j]| >= 3 && sentenceRows[j][1] == "vie"
    requires |linkRows[k]| >= 2 && ParseLong(linkRows[k][0]) == ParseLong(sentenceRows[i][0])
    requires ParseLong(linkRows[k][1]) == ParseLong(sentenceRows[j][0])
    ensures
      var sentences := SentencesOf(sentenceRows).value;
      var links := LinksOf(linkRows, Ids(sentences)).value;
      exists t | t in Translations(Filter(sentences, IsEnglish), Filter(sentences, IsVietnamese), links, audio) ::
        && Some(t.id) == ParseLong(sentenceRows[i][0]) && t.text == sentenceRows[i][2]
        && Some(t.translateId) == ParseLong(sentenceRows[j][0]) && t.translateText == sentenceRows[j][2]
  {
    var sentences := SentencesOf(sentenceRows).value;
    var ids := Ids(sentences);
    var links := LinksOf(linkRows, ids).value;
    var english, vietnamese := Filter(sentences, IsEnglish), Filter(sentences, IsVietnamese);
    SentenceOfRow(sentenceRows, i);
    SentenceOfRow(sentenceRows, j);
    var e := Sentence(ParseLong(sentenceRows[i][0]).value, sentenceRows[i][1], sentenceRows[i][2]);
    var v := Sentence(ParseLong(sentenceRows[j][0]).value, sentenceRows[j][1], sentenceRows[j][2]);
    FilterCount(sentences, IsEnglish, e);
    FilterCount(sentences, IsVietnamese, v);
    KnownIdOfRow(sentenceRows, i);
    LinkOfRow(linkRows, ids, k);
    TranslationsComplete(english, vietnamese, links, audio, e, v);
  }

  /** A record's audio URL is present iff some audio row for its English id has a license
      field other than the null marker (an empty field counts), and then it is the "eng"
      path for that id. */
  lemma RawDataAudio(sentenceRows: seq<Row>, linkRows: seq<Row>, audioRows: seq<Row>, t: Translation)
    requires RawData(sentenceRows, linkRows, audioRows).Ok?
    requires t in RawData(sentenceRows, linkRows, audioRows).value
    ensures t.audioUrl.Some? <==>
      exists k | 0 <= k < |audioRows| ::
        |audioRows[k]| >= 4 && ParseLong(audioRows[k][0]) == Some(t.id) && audioRows[k][2] != NullLicense
    ensures t.audioUrl.Some? ==> t.audioUrl.value == AudioBaseUrl + "eng/" + FormatLong(t.id) + ".mp3"
  {
    var sentences := SentencesOf(sentenceRows).value;
    var links := LinksOf(linkRows, Ids(sentences)).value;
    JoinAudio(sentences, links, audioRows, t);
  }

  lemma JoinAudio(sentences: seq<Sentence>, links: seq<Link>, audioRows: seq<Row>, t: Translation)
    requires AudioOf(audioRows, Ids(sentences)).Ok?
    requires t in Translations(Filter(sentences, IsEnglish), Filter(sentences, IsVietnamese), links, AudioOf(audioRows, Ids(sentences)).value)
    ensures t.audioUrl.Some? <==>
      exists k | 0 <= k < |audioRows| ::
        |audioRows[k]| >= 4 && ParseLong(audioRows[k][0]) == Some(t.id) && audioRows[k][2] != NullLicense
    ensures t.audioUrl.Some? ==> t.audioUrl.value == AudioBaseUrl + "eng/" + FormatLong(t.id) + ".mp3"
  {
    var ids := Ids(sentences);
    var audio := AudioOf(audioRows, ids).value;
    var english, vietnamese := Filter(sentences, IsEnglish), Filter(sentences, IsVietnamese);
    assert t.id in ids && t.audioUrl == if AudioAvailable(audio, t.id) then Some(AudioBaseUrl + "eng/" + FormatLong(t.id) + ".mp3") else None by {
      forall e | e in english ensures IsEnglish(e) {
        FilterCount(sentences, IsEnglish, e);
      }
      RecordAudioUrl(english, vietnamese, links, audio, t);
      TranslationsSound(english, vietnamese, links, audio, t);
      var e, v :| e in english && v in vietnamese
        && Link(e.id, v.id) in links && t == GetTranslation(e, v, AudioAvailable(audio, e.id));
      FilterCount(sentences, IsEnglish, e);
      var n :| 0 <= n < |sentences| && sentences[n] == e;
      assert ids[n] == t.id;
    }
    AudioAvailableMeaning(audio, t.id);
    if t.audioUrl.Some? {
      var a :| a in audio && a.sentenceId == t.id && a.license != NullLicense;
      AudioRowOf(audioRows, ids, a);
    }
    if k :| 0 <= k < |audioRows| && |audioRows[k]| >= 4 && ParseLong(audioRows[k][0]) == Some(t.id) && audioRows[k][2] != NullLicense {
      AudioOfRow(audioRows, ids, k);
    }
  }
}
