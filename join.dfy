/** The join at the heart of `createRawData`: for every English sentence, in sentence
    order, and every Vietnamese sentence, in sentence order, one Translation per link
    row from the English id to the Vietnamese id, with the audio URL of the English
    sentence when an audio row with a license other than the null marker exists. */
module Join {
  import opened Wrappers
  import opened JavaLong
  import opened Entities
  import opened Rows
  import opened Readers

  const AudioBaseUrl := "https://audio.tatoeba.org/"

  /** The dataset's marker for a missing value: a backslash followed by N. */
  const NullLicense := "\\N"

  predicate IsEnglish(s: Sentence) {
    s.lang == "eng"
  }

  predicate IsVietnamese(s: Sentence) {
    s.lang == "vie"
  }

  /** `generateAudioUrl`: null unless audio is available, the sentence's own language
      and id in the path otherwise. */
  function GenerateAudioUrl(available: bool, sentence: Sentence): (r: Option<string>)
    ensures r.Some? <==> available
    ensures r.Some? ==> AudioBaseUrl <= r.value
  {
    if available then Some(AudioBaseUrl + sentence.lang + "/" + FormatLong(sentence.id) + ".mp3")
    else None
  }

  /** Two sentences of one language that share an audio URL share their id. */
  lemma AudioUrlDeterminesId(s1: Sentence, s2: Sentence)
    requires s1.lang == s2.lang
    requires GenerateAudioUrl(true, s1) == GenerateAudioUrl(true, s2)
    ensures s1.id == s2.id
  {
    var prefix := AudioBaseUrl + s1.lang + "/";
    var u1, u2 := GenerateAudioUrl(true, s1).value, GenerateAudioUrl(true, s2).value;
    assert u1 == prefix + FormatLong(s1.id) + ".mp3";
    assert u2 == prefix + FormatLong(s2.id) + ".mp3";
    assert FormatLong(s1.id) == u1[|prefix|..|u1| - 4];
    assert FormatLong(s2.id) == u2[|prefix|..|u2| - 4];
    FormatLongInjective(s1.id, s2.id);
  }

  /** `getTranslation`: the record for one English/Vietnamese pair. */
  function GetTranslation(english: Sentence, vietnamese: Sentence, available: bool): (t: Translation)
    ensures t.id == english.id && t.text == english.text
    ensures t.translateId == vietnamese.id && t.translateText == vietnamese.text
    ensures t.audioUrl.Some? <==> available
  {
    Translation(english.id, english.text, GenerateAudioUrl(available, english), vietnamese.id, vietnamese.text)
  }

  /** `collectTranslationId`: the target ids of the links whose source is `id`, in link order. */
  function TargetsOf(links: seq<Link>, id: int): seq<int>
    decreases |links|
  {
    if links == [] then []
    else
      var last := links[|links| - 1];
      TargetsOf(links[..|links| - 1], id) + if last.sentenceId == id then [last.translationId] else []
  }

  /** Each target occurs in `TargetsOf(links, id)` once per link row from `id` to it. */
  lemma {:induction false} TargetsOfCount(links: seq<Link>, id: int, target: int)
    ensures multiset(TargetsOf(links, id))[target] == multiset(links)[Link(id, target)]
    decreases |links|
  {
    if links != [] {
      var init, last := links[..|links| - 1], links[|links| - 1];
      assert links == init + [last];
      TargetsOfCount(init, id, target);
    }
  }

  /** `sentenceAudioLicenseAvailable`: an `anyMatch` over the audio rows. */
  predicate AudioAvailable(audio: seq<SentenceWithAudio>, id: int)
    decreases |audio|
  {
    if audio == [] then false
    else
      var last := audio[|audio| - 1];
      AudioAvailable(audio[..|audio| - 1], id) || (last.sentenceId == id && last.license != NullLicense)
  }

  /** Audio is available for `id` iff some audio row for `id` has a license other than
      the null marker; an empty license counts. */
  lemma {:induction false} AudioAvailableMeaning(audio: seq<SentenceWithAudio>, id: int)
    ensures AudioAvailable(audio, id) <==> exists a | a in audio :: a.sentenceId == id && a.license != NullLicense
    decreases |audio|
  {
    if audio != [] {
      var init, last := audio[..|audio| - 1], audio[|audio| - 1];
      assert audio == init + [last];
      AudioAvailableMeaning(init, id);
    }
  }

  /** `n` copies of `t`. */
  function Copies(t: Translation, n: nat): seq<Translation>
    decreases n
  {
    if n == 0 then [] else Copies(t, n - 1) + [t]
  }

  /** The records the inner two loops add for English sentence `english`: per Vietnamese
      sentence, in order, one copy per occurrence of its id among `targets`. */
  function PairsFor(english: Sentence, vietnamese: seq<Sentence>, targets: seq<int>, available: bool): seq<Translation>
    decreases |vietnamese|
  {
    if vietnamese == [] then []
    else
      var v := vietnamese[|vietnamese| - 1];
      PairsFor(english, vietnamese[..|vietnamese| - 1], targets, available)
        + Copies(GetTranslation(english, v, available), multiset(targets)[v.id])
  }

  /** The whole output of the three nested loops. */
  function Translations(english: seq<Sentence>, vietnamese: seq<Sentence>, links: seq<Link>, audio: seq<SentenceWithAudio>): seq<Translation>
    decreases |english|
  {
    if english == [] then []
    else
      var e := english[|english| - 1];
      Translations(english[..|english| - 1], vietnamese, links, audio)
        + PairsFor(e, vietnamese, TargetsOf(links, e.id), AudioAvailable(audio, e.id))
  }

  /** Unfolding helper: one explicit associativity step. Calling it in the order lemmas
      below keeps their proofs from searching through all the ways to regroup a concatenation. */
  lemma AppendAssoc<X>(a: seq<X>, b: seq<X>, c: seq<X>)
    ensures (a + b) + c == a + (b + c)
  {
  }

  lemma PrefixCountStep(xs: seq<int>, k: nat, x: int)
    requires k < |xs|
    ensures multiset(xs[..k + 1])[x] == multiset(xs[..k])[x] + if xs[k] == x then 1 else 0
  {
    assert xs[..k + 1] == xs[..k] + [xs[k]];
  }

  lemma PairsForStep(english: Sentence, vietnamese: seq<Sentence>, j: nat, targets: seq<int>, available: bool)
    requires j < |vietnamese|
    ensures PairsFor(english, vietnamese[..j + 1], targets, available)
         == PairsFor(english, vietnamese[..j], targets, available)
            + Copies(GetTranslation(english, vietnamese[j], available), multiset(targets)[vietnamese[j].id])
  {
    assert vietnamese[..j + 1][..j] == vietnamese[..j];
  }

  lemma TranslationsStep(english: seq<Sentence>, i: nat, vietnamese: seq<Sentence>, links: seq<Link>, audio: seq<SentenceWithAudio>)
    requires i < |english|
    ensures Translations(english[..i + 1], vietnamese, links, audio)
         == Translations(english[..i], vietnamese, links, audio)
            + PairsFor(english[i], vietnamese, TargetsOf(links, english[i].id), AudioAvailable(audio, english[i].id))
  {
    assert english[..i + 1][..i] == english[..i];
  }

  /** Lines 51-56 of `createRawData`: one record for the pair per occurrence of the
      Vietnamese id among the English sentence's link targets. */
  method AddPerLink(translations: seq<Translation>, english: Sentence, vietnamese: Sentence, targets: seq<int>, available: bool)
    returns (result: seq<Translation>)
    ensures result == translations + Copies(GetTranslation(english, vietnamese, available), multiset(targets)[vietnamese.id])
  {
    var pair := GetTranslation(english, vietnamese, available);
    result := translations;
    for k := 0 to |targets|
      invariant result == translations + Copies(pair, multiset(targets[..k])[vietnamese.id])
    {
      PrefixCountStep(targets, k, vietnamese.id);
      if targets[k] == vietnamese.id {
        result := result + [pair];
      }
    }
    assert targets[..|targets|] == targets;
  }

  /** The middle loop of `createRawData` for one English sentence: every Vietnamese
      sentence in order, one record per matching link. */
  method AddPairs(translations: seq<Translation>, english: Sentence, vietnamese: seq<Sentence>, targets: seq<int>, available: bool)
    returns (result: seq<Translation>)
    ensures result == translations + PairsFor(english, vietnamese, targets, available)
  {
    result := translations;
    for j := 0 to |vietnamese|
      invariant result == translations + PairsFor(english, vietnamese[..j], targets, available)
    {
      var v := vietnamese[j];
      if v.id in targets {
        result := AddPerLink(result, english, v, targets, available);
      }
      PairsForStep(english, vietnamese, j, targets, available);
    }
    assert vietnamese[..|vietnamese|] == vietnamese;
  }

  /** Lines 31-61 of `createRawData`: split the sentences by language, then the nested loops. */
  method MergeTranslations(sentences: seq<Sentence>, links: seq<Link>, audio: seq<SentenceWithAudio>)
    returns (translations: seq<Translation>)
    ensures translations == Translations(Filter(sentences, IsEnglish), Filter(sentences, IsVietnamese), links, audio)
  {
    var english := Filter(sentences, IsEnglish);
    var vietnamese := Filter(sentences, IsVietnamese);
    translations := [];
    for i := 0 to |english|
      invariant translations == Translations(english[..i], vietnamese, links, audio)
    {
      var e := english[i];
      var targets := TargetsOf(links, e.id);
      var available := AudioAvailable(audio, e.id);
      TranslationsStep(english, i, vietnamese, links, audio);
      translations := AddPairs(translations, e, vietnamese, targets, available);
    }
    assert english[..|english|] == english;
  }

  // ------------------------------------------------------------------ lemmas

  /** Number of records for the id pair (id, translateId). */
  function CountPair(translations: seq<Translation>, id: int, translateId: int): nat
    decreases |translations|
  {
    if translations == [] then 0
    else
      var t := translations[|translations| - 1];
      CountPair(translations[..|translations| - 1], id, translateId)
        + if t.id == id && t.translateId == translateId then 1 else 0
  }

  lemma {:induction false} CountPairAppend(a: seq<Translation>, b: seq<Translation>, id: int, translateId: int)
    ensures CountPair(a + b, id, translateId) == CountPair(a, id, translateId) + CountPair(b, id, translateId)
    decreases |b|
  {
    if b == [] {
      assert a + b == a;
    } else {
      var init := b[..|b| - 1];
      assert (a + b)[..|a + b| - 1] == a + init;
      assert (a + b)[|a + b| - 1] == b[|b| - 1];
      CountPairAppend(a, init, id, translateId);
    }
  }

  lemma {:induction false} CopiesCount(t: Translation, n: nat, id: int, translateId: int)
    ensures CountPair(Copies(t, n), id, translateId) == if t.id == id && t.translateId == translateId then n else 0
    decreases n
  {
    if n > 0 {
      CopiesCount(t, n - 1, id, translateId);
      CountPairAppend(Copies(t, n - 1), [t], id, translateId);
      assert [t][..0] == [];
    }
  }

  lemma {:induction false} CopiesMember(t: Translation, n: nat, u: Translation)
    ensures u in Copies(t, n) <==> n > 0 && u == t
    decreases n
  {
    if n > 0 {
      CopiesMember(t, n - 1, u);
    }
  }

  /** `n` groups of `c`: multiplication by repeated addition, so that the counting
      proofs below stay linear. */
  function Times(n: nat, c: nat): nat
    decreases n
  {
    if n == 0 then 0 else Times(n - 1, c) + c
  }

  lemma {:induction false} TimesProduct(n: nat, c: nat)
    ensures Times(n, c) == n * c
    decreases n
  {
    if n > 0 {
      TimesProduct(n - 1, c);
    }
  }

  /** The count of an id among the ids of a non-empty list, split at its last element. */
  lemma IdsCountLast(sentences: seq<Sentence>, id: int)
    requires sentences != []
    ensures multiset(Ids(sentences))[id]
         == multiset(Ids(sentences[..|sentences| - 1]))[id] + if sentences[|sentences| - 1].id == id then 1 else 0
  {
    assert Ids(sentences) == Ids(sentences[..|sentences| - 1]) + [sentences[|sentences| - 1].id];
  }

  lemma {:induction false} PairsForCount(english: Sentence, vietnamese: seq<Sentence>, targets: seq<int>, available: bool, id: int, translateId: int)
    ensures CountPair(PairsFor(english, vietnamese, targets, available), id, translateId)
         == if english.id == id then Times(multiset(Ids(vietnamese))[translateId], multiset(targets)[translateId]) else 0
    decreases |vietnamese|
  {
    if vietnamese != [] {
      var init, v := vietnamese[..|vietnamese| - 1], vietnamese[|vietnamese| - 1];
      var pair := GetTranslation(english, v, available);
      var before, added := PairsFor(english, init, targets, available), Copies(pair, multiset(targets)[v.id]);
      var c := multiset(targets)[translateId];
      var inc := if v.id == translateId then 1 else 0;
      assert CountPair(PairsFor(english, vietnamese, targets, available), id, translateId)
          == CountPair(before, id, translateId) + CountPair(added, id, translateId) by {
        CountPairAppend(before, added, id, translateId);
      }
      assert CountPair(added, id, translateId) == if english.id == id && inc == 1 then c else 0 by {
        CopiesCount(pair, multiset(targets)[v.id], id, translateId);
      }
      PairsForCount(english, init, targets, available, id, translateId);
      if english.id == id {
        IdsCountLast(vietnamese, translateId);
        TimesStep(multiset(Ids(init))[translateId], inc, multiset(Ids(vietnamese))[translateId], c);
      }
    }
  }

  /** Unfolding helper: `Times` grows by `c` when its count grows by one. */
  lemma TimesStep(before: nat, inc: nat, after: nat, c: nat)
    requires inc <= 1 && after == before + inc
    ensures Times(after, c) == Times(before, c) + if inc == 1 then c else 0
  {
  }

  lemma {:induction false} TranslationsCountTimes(english: seq<Sentence>, vietnamese: seq<Sentence>, links: seq<Link>, audio: seq<SentenceWithAudio>, id: int, translateId: int)
    ensures CountPair(Translations(english, vietnamese, links, audio), id, translateId)
         == Times(multiset(Ids(english))[id], Times(multiset(Ids(vietnamese))[translateId], multiset(links)[Link(id, translateId)]))
    decreases |english|
  {
    if english != [] {
      TranslationsCountTimes(english[..|english| - 1], vietnamese, links, audio, id, translateId);
      TranslationsCountStep(english, vietnamese, links, audio, id, translateId);
    }
  }

  /** The inductive step of `TranslationsCountTimes`: one more English sentence. */
  lemma TranslationsCountStep(english: seq<Sentence>, vietnamese: seq<Sentence>, links: seq<Link>, audio: seq<SentenceWithAudio>, id: int, translateId: int)
    requires english != []
    requires CountPair(Translations(english[..|english| - 1], vietnamese, links, audio), id, translateId)
          == Times(multiset(Ids(english[..|english| - 1]))[id], Times(multiset(Ids(vietnamese))[translateId], multiset(links)[Link(id, translateId)]))
    ensures CountPair(Translations(english, vietnamese, links, audio), id, translateId)
         == Times(multiset(Ids(english))[id], Times(multiset(Ids(vietnamese))[translateId], multiset(links)[Link(id, translateId)]))
  {
    var init, e := english[..|english| - 1], english[|english| - 1];
    var targets, available := TargetsOf(links, e.id), AudioAvailable(audio, e.id);
    var before, added := Translations(init, vietnamese, links, audio), PairsFor(e, vietnamese, targets, available);
    var c := Times(multiset(Ids(vietnamese))[translateId], multiset(links)[Link(id, translateId)]);
    var inc := if e.id == id then 1 else 0;
    calc {
      CountPair(Translations(english, vietnamese, links, audio), id, translateId);
      { CountPairAppend(before, added, id, translateId); }
      CountPair(before, id, translateId) + CountPair(added, id, translateId);
      { PairsForCount(e, vietnamese, targets, available, id, translateId);
        TargetsOfCount(links, e.id, translateId); }
      Times(multiset(Ids(init))[id], c) + if inc == 1 then c else 0;
      { IdsCountLast(english, id);
        TimesStep(multiset(Ids(init))[id], inc, multiset(Ids(english))[id], c); }
      Times(multiset(Ids(english))[id], c);
    }
  }

  /** Multiplicity: the output holds, for ids x and y, (English sentences with id x) times
      (Vietnamese sentences with id y) times (link rows (x, y)) records; duplicate link
      rows are not merged. */
  lemma TranslationsCount(english: seq<Sentence>, vietnamese: seq<Sentence>, links: seq<Link>, audio: seq<SentenceWithAudio>, id: int, translateId: int)
    ensures CountPair(Translations(english, vietnamese, links, audio), id, translateId)
         == multiset(Ids(english))[id] as int * (multiset(Ids(vietnamese))[translateId] as int * multiset(links)[Link(id, translateId)])
  {
    var perEnglish := multiset(Ids(vietnamese))[translateId] * multiset(links)[Link(id, translateId)];
    TranslationsCountTimes(english, vietnamese, links, audio, id, translateId);
    TimesProduct(multiset(Ids(vietnamese))[translateId], multiset(links)[Link(id, translateId)]);
    TimesProduct(multiset(Ids(english))[id], perEnglish);
  }

  lemma {:induction false} PairsForSound(english: Sentence, vietnamese: seq<Sentence>, targets: seq<int>, available: bool, t: Translation)
    requires t in PairsFor(english, vietnamese, targets, available)
    ensures exists v | v in vietnamese :: v.id in targets && t == GetTranslation(english, v, available)
    decreases |vietnamese|
  {
    var init, v := vietnamese[..|vietnamese| - 1], vietnamese[|vietnamese| - 1];
    var copies := Copies(GetTranslation(english, v, available), multiset(targets)[v.id]);
    if t in PairsFor(english, init, targets, available) {
      PairsForSound(english, init, targets, available, t);
      var w :| w in init && w.id in targets && t == GetTranslation(english, w, available);
      assert w in vietnamese;
    } else {
      assert t in copies;
      CopiesMember(GetTranslation(english, v, available), multiset(targets)[v.id], t);
    }
  }

  /** Soundness: every record pairs an English-list sentence with a Vietnamese-list
      sentence joined by some link row, and carries the English sentence's audio URL. */
  lemma {:induction false} TranslationsSound(english: seq<Sentence>, vietnamese: seq<Sentence>, links: seq<Link>, audio: seq<SentenceWithAudio>, t: Translation)
    requires t in Translations(english, vietnamese, links, audio)
    ensures exists e, v | e in english && v in vietnamese ::
      Link(e.id, v.id) in links && t == GetTranslation(e, v, AudioAvailable(audio, e.id))
    decreases |english|
  {
    var init, e := english[..|english| - 1], english[|english| - 1];
    if t in Translations(init, vietnamese, links, audio) {
      TranslationsSound(init, vietnamese, links, audio, t);
      var e', v :| e' in init && v in vietnamese
        && Link(e'.id, v.id) in links && t == GetTranslation(e', v, AudioAvailable(audio, e'.id));
      assert e' in english;
    } else {
      PairsForSound(e, vietnamese, TargetsOf(links, e.id), AudioAvailable(audio, e.id), t);
      var v :| v in vietnamese && v.id in TargetsOf(links, e.id) && t == GetTranslation(e, v, AudioAvailable(audio, e.id));
      TargetsOfCount(links, e.id, v.id);
    }
  }

  lemma {:induction false} PairsForComplete(english: Sentence, vietnamese: seq<Sentence>, targets: seq<int>, available: bool, v: Sentence)
    requires v in vietnamese && v.id in targets
    ensures GetTranslation(english, v, available) in PairsFor(english, vietnamese, targets, available)
    decreases |vietnamese|
  {
    var init, last := vietnamese[..|vietnamese| - 1], vietnamese[|vietnamese| - 1];
    assert vietnamese == init + [last];
    if v in init {
      PairsForComplete(english, init, targets, available, v);
    } else {
      CopiesMember(GetTranslation(english, v, available), multiset(targets)[v.id], GetTranslation(english, v, available));
    }
  }

  /** Completeness: every linked English/Vietnamese pair of list sentences yields a record. */
  lemma {:induction false} TranslationsComplete(english: seq<Sentence>, vietnamese: seq<Sentence>, links: seq<Link>, audio: seq<SentenceWithAudio>, e: Sentence, v: Sentence)
    requires e in english && v in vietnamese && Link(e.id, v.id) in links
    ensures GetTranslation(e, v, AudioAvailable(audio, e.id)) in Translations(english, vietnamese, links, audio)
    decreases |english|
  {
    var init, last := english[..|english| - 1], english[|english| - 1];
    assert english == init + [last];
    if e in init {
      TranslationsComplete(init, vietnamese, links, audio, e, v);
    } else {
      TargetsOfCount(links, e.id, v.id);
      PairsForComplete(e, vietnamese, TargetsOf(links, e.id), AudioAvailable(audio, e.id), v);
    }
  }

  /** Order, inner level: for one English sentence, the records of earlier Vietnamese
      sentences come first. */
  lemma {:induction false} PairsForAppend(english: Sentence, v1: seq<Sentence>, v2: seq<Sentence>, targets: seq<int>, available: bool)
    ensures PairsFor(english, v1 + v2, targets, available)
         == PairsFor(english, v1, targets, available) + PairsFor(english, v2, targets, available)
    decreases |v2|
  {
    if v2 == [] {
      assert v1 + v2 == v1;
    } else {
      var init, last := v2[..|v2| - 1], v2[|v2| - 1];
      assert (v1 + v2)[..|v1 + v2| - 1] == v1 + init;
      assert (v1 + v2)[|v1 + v2| - 1] == last;
      var copies := Copies(GetTranslation(english, last, available), multiset(targets)[last.id]);
      PairsForAppend(english, v1, init, targets, available);
      AppendAssoc(PairsFor(english, v1, targets, available), PairsFor(english, init, targets, available), copies);
    }
  }

  /** Order, outer level: the records of earlier English sentences come first, and those
      of one English sentence form one block. */
  lemma {:induction false} TranslationsAppend(e1: seq<Sentence>, e2: seq<Sentence>, vietnamese: seq<Sentence>, links: seq<Link>, audio: seq<SentenceWithAudio>)
    ensures Translations(e1 + e2, vietnamese, links, audio)
         == Translations(e1, vietnamese, links, audio) + Translations(e2, vietnamese, links, audio)
    decreases |e2|
  {
    if e2 == [] {
      assert e1 + e2 == e1;
    } else {
      var init, last := e2[..|e2| - 1], e2[|e2| - 1];
      var block := PairsFor(last, vietnamese, TargetsOf(links, last.id), AudioAvailable(audio, last.id));
      assert (e1 + e2)[..|e1 + e2| - 1] == e1 + init;
      assert (e1 + e2)[|e1 + e2| - 1] == last;
      TranslationsAppend(e1, init, vietnamese, links, audio);
      AppendAssoc(Translations(e1, vietnamese, links, audio), Translations(init, vietnamese, links, audio), block);
    }
  }

  /** Where each English sentence's records sit: the block of `english[i]` follows the
      blocks of the sentences before it and precedes those of the sentences after it. */
  lemma TranslationsBlock(english: seq<Sentence>, i: nat, vietnamese: seq<Sentence>, links: seq<Link>, audio: seq<SentenceWithAudio>)
    requires i < |english|
    ensures Translations(english, vietnamese, links, audio)
         == Translations(english[..i], vietnamese, links, audio)
            + PairsFor(english[i], vietnamese, TargetsOf(links, english[i].id), AudioAvailable(audio, english[i].id))
            + Translations(english[i + 1..], vietnamese, links, audio)
  {
    assert english == english[..i + 1] + english[i + 1..];
    TranslationsAppend(english[..i + 1], english[i + 1..], vietnamese, links, audio);
    TranslationsStep(english, i, vietnamese, links, audio);
  }

  lemma RecordAudioUrl(english: seq<Sentence>, vietnamese: seq<Sentence>, links: seq<Link>, audio: seq<SentenceWithAudio>, t: Translation)
    requires forall e | e in english :: IsEnglish(e)
    requires t in Translations(english, vietnamese, links, audio)
    ensures t.audioUrl == if AudioAvailable(audio, t.id) then Some(AudioBaseUrl + "eng/" + FormatLong(t.id) + ".mp3") else None
  {
    TranslationsSound(english, vietnamese, links, audio, t);
    var e, v :| e in english && v in vietnamese
      && Link(e.id, v.id) in links && t == GetTranslation(e, v, AudioAvailable(audio, e.id));
    assert AudioBaseUrl + e.lang + "/" == AudioBaseUrl + "eng/";
  }

  /** Audio: a record has a URL iff some audio row for its English id has a license other
      than the null marker (an empty license counts), and the URL is the "eng" path for
      that id; so all records of one English sentence share their URL. */
  lemma TranslationsAudio(english: seq<Sentence>, vietnamese: seq<Sentence>, links: seq<Link>, audio: seq<SentenceWithAudio>)
    requires forall e | e in english :: IsEnglish(e)
    ensures forall t | t in Translations(english, vietnamese, links, audio) ::
      && (t.audioUrl.Some? <==> exists a | a in audio :: a.sentenceId == t.id && a.license != NullLicense)
      && (t.audioUrl.Some? ==> t.audioUrl.value == AudioBaseUrl + "eng/" + FormatLong(t.id) + ".mp3")
    ensures forall t1, t2 | t1 in Translations(english, vietnamese, links, audio) && t2 in Translations(english, vietnamese, links, audio) ::
      t1.id == t2.id ==> t1.audioUrl == t2.audioUrl
  {
    forall t | t in Translations(english, vietnamese, links, audio)
      ensures t.audioUrl == if AudioAvailable(audio, t.id) then Some(AudioBaseUrl + "eng/" + FormatLong(t.id) + ".mp3") else None
      ensures AudioAvailable(audio, t.id) <==> exists a | a in audio :: a.sentenceId == t.id && a.license != NullLicense
    {
      RecordAudioUrl(english, vietnamese, links, audio, t);
      AudioAvailableMeaning(audio, t.id);
    }
  }
}
