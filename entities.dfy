/** The records the merge works on. `Sentence`, `Link` and `SentenceWithAudio` are the
    service's row models (the Java classes Sentence, LinkFileName and
    SentenceWithAudioFilename, known here by the setters the service calls);
    `Translation` is the output entity. Java `Long`/`Integer` ids are `int` here. */
module Entities {
  import opened Wrappers

  datatype Sentence = Sentence(id: int, lang: string, text: string)

  datatype Link = Link(sentenceId: int, translationId: int)

  datatype SentenceWithAudio = SentenceWithAudio(sentenceId: int, userName: string, license: string, attributionUrl: string)

  /** `audioUrl` is `None` where the entity holds null. */
  datatype Translation = Translation(id: int, text: string, audioUrl: Option<string>, translateId: int, translateText: string)
}
