/** The worked examples of the service's behaviour, evaluated on the model. */
module Examples {
  import opened Wrappers
  import opened JavaLong
  import opened Rows
  import opened Entities
  import opened Readers
  import opened Join
  import opened MergeService

  lemma ParseSmall()
    ensures ParseLong("1") == Some(1) && ParseLong("2") == Some(2) && ParseLong("3") == Some(3)
  {
    assert DigitsValue("1") == 1;
    assert DigitsValue("2") == 2;
    assert DigitsValue("3") == 3;
  }

  lemma CollectKeep<T>(a: Row, step: Row -> Result<Option<T>, Fault>, x: T)
    requires step(a) == Ok(Some(x))
    ensures Collect([a], step) == Ok([x])
  {
    var none: seq<Row> := [];
    assert Collect(none, step) == Ok([]);
    CollectSnoc(none, a, step);
    assert none + [a] == [a];
    assert [] + [x] == [x];
  }

  lemma CollectKeepKeep<T>(a: Row, b: Row, step: Row -> Result<Option<T>, Fault>, x: T, y: T)
    requires step(a) == Ok(Some(x)) && step(b) == Ok(Some(y))
    ensures Collect([a, b], step) == Ok([x, y])
  {
    CollectKeep(a, step, x);
    CollectSnoc([a], b, step);
    assert [a] + [b] == [a, b];
    assert [x] + [y] == [x, y];
  }

  lemma CollectKeepKeepSkip<T>(a: Row, b: Row, c: Row, step: Row -> Result<Option<T>, Fault>, x: T, y: T)
    requires step(a) == Ok(Some(x)) && step(b) == Ok(Some(y)) && step(c) == Ok(None)
    ensures Collect([a, b, c], step) == Ok([x, y])
  {
    CollectKeepKeep(a, b, step, x, y);
    CollectSnoc([a, b], c, step);
    assert [a, b] + [c] == [a, b, c];
  }

  lemma ExampleSentenceSteps()
    ensures SentenceStep(["1", "eng", "Hello"]) == Ok(Some(Sentence(1, "eng", "Hello")))
    ensures SentenceStep(["2", "vie", "Xin chao"]) == Ok(Some(Sentence(2, "vie", "Xin chao")))
    ensures SentenceStep(["3", "fra", "Bonjour"]) == Ok(None)
  {
    ParseSmall();
  }

  /** The French row is dropped by the sentence reader without its id being parsed. */
  lemma ExampleSentences()
    ensures SentencesOf([["1", "eng", "Hello"], ["2", "vie", "Xin chao"], ["3", "fra", "Bonjour"]])
         == Ok([Sentence(1, "eng", "Hello"), Sentence(2, "vie", "Xin chao")])
  {
    ExampleSentenceSteps();
    CollectKeepKeepSkip(["1", "eng", "Hello"], ["2", "vie", "Xin chao"], ["3", "fra", "Bonjour"], SentenceStep,
                        Sentence(1, "eng", "Hello"), Sentence(2, "vie", "Xin chao"));
  }

  lemma ExampleLinkSteps()
    ensures LinkStepFor([1, 2])(["1", "2"]) == Ok(Some(Link(1, 2)))
    ensures LinkStepFor([1, 2])(["1", "3"]) == Ok(Some(Link(1, 3)))
  {
    ParseSmall();
  }

  /** Both links are kept: only the source id is looked up, so the link to the French
      sentence 3 survives the reader. */
  lemma ExampleLinks()
    ensures LinksOf([["1", "2"], ["1", "3"]], [1, 2]) == Ok([Link(1, 2), Link(1, 3)])
  {
    ExampleLinkSteps();
    CollectKeepKeep(["1", "2"], ["1", "3"], LinkStepFor([1, 2]), Link(1, 2), Link(1, 3));
  }

  lemma ExampleAudio(license: string)
    ensures AudioOf([["1", "u", license, "url"]], [1, 2]) == Ok([SentenceWithAudio(1, "u", license, "url")])
  {
    ParseSmall();
    assert AudioStepFor([1, 2])(["1", "u", license, "url"]) == Ok(Some(SentenceWithAudio(1, "u", license, "url")));
    CollectKeep(["1", "u", license, "url"], AudioStepFor([1, 2]), SentenceWithAudio(1, "u", license, "url"));
  }

  /** The join of the example: the link to the French sentence finds no Vietnamese
      sentence, so one record remains, carrying the English sentence's audio URL. */
  lemma ExampleJoin()
    ensures Translations([Sentence(1, "eng", "Hello")], [Sentence(2, "vie", "Xin chao")],
                         [Link(1, 2), Link(1, 3)], [SentenceWithAudio(1, "u", "CC0", "url")])
         == [Translation(1, "Hello", Some("https://audio.tatoeba.org/eng/1.mp3"), 2, "Xin chao")]
  {
    var e, v := Sentence(1, "eng", "Hello"), Sentence(2, "vie", "Xin chao");
    var links := [Link(1, 2), Link(1, 3)];
    var audio := [SentenceWithAudio(1, "u", "CC0", "url")];
    var t := Translation(1, "Hello", Some("https://audio.tatoeba.org/eng/1.mp3"), 2, "Xin chao");
    assert [Link(1, 2), Link(1, 3)][..1] == [Link(1, 2)];
    assert TargetsOf([Link(1, 2)], 1) == [2];
    assert TargetsOf(links, 1) == [2, 3];
    assert multiset([2, 3])[2] == 1;
    assert AudioAvailable(audio, 1);
    assert FormatLong(1) == "1";
    assert AudioBaseUrl + "eng" + "/" + "1" + ".mp3" == "https://audio.tatoeba.org/eng/1.mp3";
    assert GenerateAudioUrl(true, e) == Some("https://audio.tatoeba.org/eng/1.mp3");
    assert GetTranslation(e, v, true) == t;
    assert Copies(t, 1) == [t];
    assert PairsFor(e, [v], [2, 3], true) == [t];
  }

  /** An audio row whose license is the null marker gives no audio URL. */
  lemma ExampleNullLicense()
    ensures Translations([Sentence(1, "eng", "Hello")], [Sentence(2, "vie", "Xin chao")],
                         [Link(1, 2)], [SentenceWithAudio(1, "u", NullLicense, "url")])
         == [Translation(1, "Hello", None, 2, "Xin chao")]
  {
    var e, v := Sentence(1, "eng", "Hello"), Sentence(2, "vie", "Xin chao");
    var audio := [SentenceWithAudio(1, "u", NullLicense, "url")];
    var t := Translation(1, "Hello", None, 2, "Xin chao");
    assert TargetsOf([Link(1, 2)], 1) == [2];
    assert !AudioAvailable(audio, 1);
    assert Copies(t, 1) == [t];
    assert PairsFor(e, [v], [2], false) == [t];
  }

  /** A link row that occurs twice yields its record twice. */
  lemma ExampleDuplicateLink()
    ensures Translations([Sentence(1, "eng", "Hello")], [Sentence(2, "vie", "Xin chao")],
                         [Link(1, 2), Link(1, 2)], [])
         == [Translation(1, "Hello", None, 2, "Xin chao"), Translation(1, "Hello", None, 2, "Xin chao")]
  {
    var e, v := Sentence(1, "eng", "Hello"), Sentence(2, "vie", "Xin chao");
    var t := Translation(1, "Hello", None, 2, "Xin chao");
    assert [Link(1, 2), Link(1, 2)][..1] == [Link(1, 2)];
    assert TargetsOf([Link(1, 2)], 1) == [2];
    assert TargetsOf([Link(1, 2), Link(1, 2)], 1) == [2, 2];
    assert multiset([2, 2])[2] == 2;
    assert Copies(t, 1) == [t];
    assert Copies(t, 2) == [t, t];
    assert PairsFor(e, [v], [2, 2], false) == [t, t];
  }

  /** The example's sentences as the join sees them. */
  lemma ExampleLanguages()
    ensures Ids([Sentence(1, "eng", "Hello"), Sentence(2, "vie", "Xin chao")]) == [1, 2]
    ensures Filter([Sentence(1, "eng", "Hello"), Sentence(2, "vie", "Xin chao")], IsEnglish) == [Sentence(1, "eng", "Hello")]
    ensures Filter([Sentence(1, "eng", "Hello"), Sentence(2, "vie", "Xin chao")], IsVietnamese) == [Sentence(2, "vie", "Xin chao")]
  {
    var e, v := Sentence(1, "eng", "Hello"), Sentence(2, "vie", "Xin chao");
    assert [e, v][..1] == [e];
  }

  /** Three sentences, two links and one audio row with a real license give exactly one
      record, with the English sentence's audio URL. */
  lemma ExampleRawData()
    ensures RawData([["1", "eng", "Hello"], ["2", "vie", "Xin chao"], ["3", "fra", "Bonjour"]],
                    [["1", "2"], ["1", "3"]],
                    [["1", "u", "CC0", "url"]])
         == Ok([Translation(1, "Hello", Some("https://audio.tatoeba.org/eng/1.mp3"), 2, "Xin chao")])
  {
    ExampleSentences();
    ExampleLanguages();
    ExampleLinks();
    ExampleAudio("CC0");
    ExampleJoin();
  }
}
