# CsvParseAndMergeService, modelled in Dafny

This project models `CsvParseAndMergeService`, the service that builds English–Vietnamese translation pairs from three tab-separated Tatoeba exports:

- sentences (`id, lang, text`),
- links (`sentenceId, translationId`),
- sentences with audio (`sentenceId, userName, license, attributionUrl`).

The model follows the Java service closely:

- **Readers.** Each of the three readers walks its rows in order and keeps the rows that pass its filter:
  - the sentence reader keeps `"eng"` and `"vie"` rows;
  - the link and audio readers keep rows whose field-0 id belongs to a kept sentence.
- **Faults.** Every `Long.parseLong` and every field access that Java performs is modelled. The first one that throws ends the whole run with that fault.
- **Join.** `createRawData` then loops over the English sentences, then the Vietnamese sentences, then the link targets of the English sentence. It emits one `Translation` per matching link. The audio URL `https://audio.tatoeba.org/<lang>/<id>.mp3` is set when an audio row for the English id has a license other than the null marker `\N`.

Modules, one file each:

| file | module | what it holds |
|---|---|---|
| `wrappers.dfy` | `Wrappers` | `Option` and `Result` |
| `java_long.dfy` | `JavaLong` | `Long.parseLong` as a partial function, `Long.toString`, and their round trip |
| `rows.dfy` | `Rows` | a row as a sequence of fields; the two exceptions a reader lets escape; `Filter` (stream filter); `Collect` (a reader loop that stops at the first exception) |
| `entities.dfy` | `Entities` | the row models and the `Translation` entity (`entity/Translation.java`) |
| `readers.dfy` | `Readers` | the three readers: each as a loop method proved equal to a specification function, plus lemmas saying which rows are kept and how fields map |
| `join.dfy` | `Join` | `getTranslation`, `generateAudioUrl`, the nested loops as methods, and their specification `Translations` with multiplicity, soundness, completeness, order and audio lemmas |
| `merge_service.dfy` | `MergeService` | `createRawData` end to end: from the three row lists to the records or the first fault |
| `worked_examples.dfy` | `Examples` | worked examples evaluated on the model |

Some behaviour of the code differs from what a reader might expect. The model follows the code:

- **Malformed rows.** One might expect malformed rows to be skipped. In the code, a bad number or a missing field throws, and the run produces nothing. The model has no skip path; `RawDataFailure` states exactly when the run fails.
- **Link filter.** One might expect a link to be kept only when both ids are known. The code tests only the source id (line 126). The target id is parsed but not checked. `LinksOfMeaning` and `ExampleLinks` show this.
- **Empty license.** One might expect an empty license to count as no license. The code only compares against `\N` (line 46), so an empty license yields an audio URL.
- **Output order.** One might expect records in link-file order. The code orders them by English sentence order, then Vietnamese sentence order. Each pair appears once per matching link row (lines 35–56). Duplicate sentence ids multiply the records too (`Join.TranslationsCount`).

## Model

Source paths are relative to the repository root.

| member | source | states |
|---|---|---|
| JavaLong.ParseLong | scripts/src/main/java/com/example/scripts/service/CsvParseAndMergeService.java:98 | a parsed value has the optional-sign-then-digits shape and lies within the 64-bit range; anything without that shape is rejected. Its value on every accepted text follows from this with `ParseFormatLong`, `ParseLongLeadingZero`, `ParseLongPlus` and `ParseLongMinusZero` |
| JavaLong.ParseFormatLong | scripts/src/main/java/com/example/scripts/service/CsvParseAndMergeService.java:76 | parsing the decimal text of any integer gives that integer back when it lies in the 64-bit range, and is rejected (Java throws) when it does not |
| JavaLong.ParseLongLeadingZero | scripts/src/main/java/com/example/scripts/service/CsvParseAndMergeService.java:98 | leading zeros after an optional sign are accepted and do not change the parsed value (`"007"` parses as 7) |
| JavaLong.ParseLongPlus | scripts/src/main/java/com/example/scripts/service/CsvParseAndMergeService.java:98 | a leading `+` is accepted and does not change the parsed value (`"+7"` parses as 7) |
| JavaLong.ParseLongMinusZero | scripts/src/main/java/com/example/scripts/service/CsvParseAndMergeService.java:98 | `"-0"` parses as 0 |
| JavaLong.FormatLongInjective | scripts/src/main/java/com/example/scripts/service/CsvParseAndMergeService.java:76 | two ids with the same decimal text are equal |
| Readers.SentenceStep | scripts/src/main/java/com/example/scripts/service/CsvParseAndMergeService.java:96-101 | one row succeeds iff it is readable (field 1 exists; and for "eng"/"vie" rows, field 0 parses and field 2 exists); yields a sentence iff the language is "eng" or "vie"; the sentence's id, lang and text are fields 0, 1 and 2 |
| Readers.ReadSentences | scripts/src/main/java/com/example/scripts/service/CsvParseAndMergeService.java:94-104 | the loop returns exactly the sentence reader's specification: the kept sentences in order, or the first row's fault |
| Readers.SentencesOfMeaning | scripts/src/main/java/com/example/scripts/service/CsvParseAndMergeService.java:95-103 | the reader succeeds iff every row is readable; then the k-th sentence comes from the k-th "eng"/"vie" row in input order, and every kept language is "eng" or "vie" |
| Readers.SentenceOfRow | scripts/src/main/java/com/example/scripts/service/CsvParseAndMergeService.java:95-103 | on success, every "eng"/"vie" row's sentence is in the output |
| Readers.Ids | scripts/src/main/java/com/example/scripts/service/CsvParseAndMergeService.java:117 | the id list has one entry per sentence, the i-th being the i-th sentence's id |
| Readers.LinkStep | scripts/src/main/java/com/example/scripts/service/CsvParseAndMergeService.java:126-130 | one link row succeeds iff field 0 parses and, for a known source id, field 1 exists and parses; yields a link iff the source id is known; the link's ids are fields 0 and 1 |
| Readers.ReadLinks | scripts/src/main/java/com/example/scripts/service/CsvParseAndMergeService.java:124-133 | the loop returns exactly the link reader's specification for the ids of the given sentences |
| Readers.LinksOfMeaning | scripts/src/main/java/com/example/scripts/service/CsvParseAndMergeService.java:125-132 | the reader succeeds iff every row is readable; then the k-th link comes from the k-th row with a known source id, in input order; the target id is not filtered |
| Readers.LinkRowOf | scripts/src/main/java/com/example/scripts/service/CsvParseAndMergeService.java:125-131 | every link read has a link row carrying its two ids |
| Readers.LinkOfRow | scripts/src/main/java/com/example/scripts/service/CsvParseAndMergeService.java:125-131 | on success, every row with a known source id is read as the link between its two ids |
| Readers.AudioStep | scripts/src/main/java/com/example/scripts/service/CsvParseAndMergeService.java:155-161 | one audio row succeeds iff field 0 parses and a known-id row has four fields; yields a record iff the id is known; user, license and attribution are copied unchanged |
| Readers.ReadAudio | scripts/src/main/java/com/example/scripts/service/CsvParseAndMergeService.java:153-164 | the loop returns exactly the audio reader's specification for the ids of the given sentences |
| Readers.AudioOfMeaning | scripts/src/main/java/com/example/scripts/service/CsvParseAndMergeService.java:154-162 | the reader succeeds iff every row is readable; then the k-th record comes from the k-th known-id row, with its license field unchanged |
| Readers.AudioRowOf | scripts/src/main/java/com/example/scripts/service/CsvParseAndMergeService.java:154-162 | every audio record has a four-field row with its id and license |
| Readers.AudioOfRow | scripts/src/main/java/com/example/scripts/service/CsvParseAndMergeService.java:154-162 | on success, every known-id audio row is read, keeping its license |
| Rows.FilterCount | scripts/src/main/java/com/example/scripts/service/CsvParseAndMergeService.java:31-32 | a filter keeps every accepted element exactly as often as it occurs and nothing else |
| Rows.FilterAppend | scripts/src/main/java/com/example/scripts/service/CsvParseAndMergeService.java:31-32 | filtering keeps relative order: the filter of a concatenation is the concatenation of the filters |
| Rows.CollectFails | scripts/src/main/java/com/example/scripts/service/CsvParseAndMergeService.java:95-103 | a reader loop succeeds iff every row succeeds; otherwise it reports the fault of the first failing row |
| Rows.CollectPrefixFail | scripts/src/main/java/com/example/scripts/service/CsvParseAndMergeService.java:95-103 | once a prefix of the rows has thrown, later rows change nothing |
| Rows.CollectMember | scripts/src/main/java/com/example/scripts/service/CsvParseAndMergeService.java:95-103 | on success, a record is in the output iff some row yields it |
| Join.GenerateAudioUrl | scripts/src/main/java/com/example/scripts/service/CsvParseAndMergeService.java:74-79 | a URL is produced iff audio is available, and it always starts with the audio host |
| Join.AudioUrlDeterminesId | scripts/src/main/java/com/example/scripts/service/CsvParseAndMergeService.java:76 | two sentences of one language with the same URL have the same id |
| Join.GetTranslation | scripts/src/main/java/com/example/scripts/service/CsvParseAndMergeService.java:64-72 | the record's id and text are the English sentence's, its translate id and text are the Vietnamese sentence's, and it has a URL iff audio is available |
| Join.TargetsOfCount | scripts/src/main/java/com/example/scripts/service/CsvParseAndMergeService.java:36-40 | each target occurs among an id's collected translation ids once per link row from that id to it |
| Join.AudioAvailableMeaning | scripts/src/main/java/com/example/scripts/service/CsvParseAndMergeService.java:42-47 | audio is available for an id iff some audio record for it has a license other than `\N` |
| Join.AddPerLink | scripts/src/main/java/com/example/scripts/service/CsvParseAndMergeService.java:51-56 | the innermost loop appends as many copies of the pair's record as the target occurs among the collected ids |
| Join.AddPairs | scripts/src/main/java/com/example/scripts/service/CsvParseAndMergeService.java:49-58 | the Vietnamese loop appends the English sentence's block of records |
| Join.MergeTranslations | scripts/src/main/java/com/example/scripts/service/CsvParseAndMergeService.java:31-61 | the language split and the three nested loops return exactly `Translations` of the English and Vietnamese sentences |
| Join.TranslationsCount | scripts/src/main/java/com/example/scripts/service/CsvParseAndMergeService.java:35-58 | multiplicity: the records for ids (x, y) number (English sentences with id x) × (Vietnamese sentences with id y) × (link rows x→y) |
| Join.TranslationsSound | scripts/src/main/java/com/example/scripts/service/CsvParseAndMergeService.java:35-58 | every record is the `getTranslation` of an English sentence, a Vietnamese sentence and a link between them |
| Join.TranslationsComplete | scripts/src/main/java/com/example/scripts/service/CsvParseAndMergeService.java:35-58 | every English sentence, Vietnamese sentence and link between them yields its record |
| Join.TranslationsAppend | scripts/src/main/java/com/example/scripts/service/CsvParseAndMergeService.java:35 | order, outer level: records of earlier English sentences come first, one block per sentence |
| Join.PairsForAppend | scripts/src/main/java/com/example/scripts/service/CsvParseAndMergeService.java:49 | order, inner level: within a block, records of earlier Vietnamese sentences come first |
| Join.TranslationsBlock | scripts/src/main/java/com/example/scripts/service/CsvParseAndMergeService.java:35-58 | the records of the i-th English sentence form one contiguous block, its Vietnamese loop over its collected targets with its audio flag, after the blocks of all earlier English sentences and before those of all later ones |
| Join.RecordAudioUrl | scripts/src/main/java/com/example/scripts/service/CsvParseAndMergeService.java:68 | a record's URL is the "eng" path for its id when audio is available for that id, and absent otherwise |
| Join.TranslationsAudio | scripts/src/main/java/com/example/scripts/service/CsvParseAndMergeService.java:42-47 | a record has a URL iff some audio record for its id has a license other than `\N`; the URL is the "eng" path for its id; records with the same id share their URL |
| MergeService.CreateRawData | scripts/src/main/java/com/example/scripts/service/CsvParseAndMergeService.java:25-62 | the service returns exactly `RawData`: read sentences, links, audio, then join, stopping at the first fault |
| MergeService.KnownIds | scripts/src/main/java/com/example/scripts/service/CsvParseAndMergeService.java:117 | the ids the link and audio readers test are exactly those of "eng"/"vie" sentence rows |
| MergeService.RawDataFailure | scripts/src/main/java/com/example/scripts/service/CsvParseAndMergeService.java:25-29 | the run succeeds iff every sentence row is readable and every link and audio row is readable for the known ids |
| MergeService.SentenceFromRow | scripts/src/main/java/com/example/scripts/service/CsvParseAndMergeService.java:95-103 | every sentence read comes from a row with its id, language and text |
| MergeService.RawDataSound | scripts/src/main/java/com/example/scripts/service/CsvParseAndMergeService.java:25-61 | every record traces back to an "eng" sentence row, a "vie" sentence row and a link row with matching ids and texts |
| MergeService.RawDataComplete | scripts/src/main/java/com/example/scripts/service/CsvParseAndMergeService.java:25-61 | any "eng" row, "vie" row and link row between their ids yield a record for that pair |
| MergeService.RawDataAudio | scripts/src/main/java/com/example/scripts/service/CsvParseAndMergeService.java:42-47 | a record has a URL iff some four-field audio row for its id has a license other than `\N` (an empty license counts); the URL is the "eng" path for its id |
| Examples.ExampleSentences | scripts/src/main/java/com/example/scripts/service/CsvParseAndMergeService.java:95-103 | of an "eng", a "vie" and a "fra" row, the first two are read |
| Examples.ExampleLinks | scripts/src/main/java/com/example/scripts/service/CsvParseAndMergeService.java:125-131 | a link to a sentence the reader dropped is still read, because only the source id is checked |
| Examples.ExampleRawData | scripts/src/main/java/com/example/scripts/service/CsvParseAndMergeService.java:25-61 | three sentences, two links and one licensed audio row give exactly one record, with URL `https://audio.tatoeba.org/eng/1.mp3` |
| Examples.ExampleNullLicense | scripts/src/main/java/com/example/scripts/service/CsvParseAndMergeService.java:42-47 | an audio row with license `\N` gives no URL |
| Examples.ExampleDuplicateLink | scripts/src/main/java/com/example/scripts/service/CsvParseAndMergeService.java:51-56 | a duplicated link row gives its record twice |

## Left out

- Reading the files is not modelled: `ClassPathResource`, the opencsv reader with tab separator, ignored quotes and UTF-8 decoding. Each reader receives its rows already split into string fields.
- The `IOException` handler is not modelled. It prints the stack trace and returns the records read so far. The model treats reading as never failing at the I/O level.
- The `CsvException` rethrow is not modelled. It is a fault of the CSV layer, which is outside the model.
- Spring's `@Service` wiring and the JPA and Lombok annotations on `Translation` are not modelled. They carry no behaviour the service uses.
- Ids are unbounded integers. `Translation.id` and `translateId` are declared `Integer` while the parsed ids are `long`. The conversion between the two is not modelled, and ids keep their 64-bit value.
- The Java definitions of the row classes `Sentence`, `LinkFileName` and `SentenceWithAudioFilename` (their declared field types, constructors and `equals`) are not part of this model. The datatypes in `entities.dfy` carry only the fields the service sets, and compare ids by value, as `Objects.equals` on two `Long`s does.
- JavaLong.ParseLong: accepts ASCII digits only. Java's `Long.parseLong` also accepts other Unicode decimal digits through `Character.digit`.
- The innermost loop of `createRawData` is written as its own method, `Join.AddPerLink`. The middle loop is written as `Join.AddPairs`. Each has its own loop invariant instead of one nested loop body.
