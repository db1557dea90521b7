/**
 * `/stt`: speech to text.  Two upload endpoints gate the audio (size,
 * emptiness), pick a content type and hand the bytes to the recogniser;
 * one of them stores the recognised text as a message.  The streaming
 * endpoint keeps a running transcript over the chunks it receives and
 * answers each chunk with a frame.  The recogniser is a parameter.
 */
module SttRouter {
  import opened Wrappers
  import opened Text
  import opened Http
  import opened Uuids
  import opened Tables
  import opened AgentPayload
  import MessagesRouter
  import Ordering

  /** What the recogniser gives back for one piece of audio. */
  datatype SttOutcome =
    | SttFailed(message: string)
    | Transcribed(text: string, confidence: real, language: Option<string>)

  /** The `STTResponse` model; `language` defaults to "ko-KR". */
  datatype SttResponse = SttResponse(text: string, confidence: real, language: string)

  const MaxFileSize: nat := 10 * 1024 * 1024
  const TooLarge: string := "파일 크기가 너무 큽니다. 최대 10.0MB까지 지원합니다."
  const EmptyFile: string := "빈 파일입니다."
  const NotRecognised: string := "음성을 인식할 수 없습니다."
  const DefaultContentType: string := "audio/wav"
  const DefaultUser: string := "default_user"
  const StreamContentType: string := "audio/pcm"

  /** `audio.content_type or "audio/wav"`. */
  function ContentType(declared: Option<string>): (r: string)
    ensures Given(declared) ==> r == declared.value
    ensures !Given(declared) ==> r == DefaultContentType
  {
    if Given(declared) then declared.value else DefaultContentType
  }

  /** `/transcribe`: too large is 413, empty is 400, a recogniser failure is 500 with its message. */
  function TranscribeAudio(audio: seq<bv8>, declared: Option<string>,
                           recognise: (seq<bv8>, string) -> SttOutcome)
    : (r: Result<SttResponse, HttpError>)
    ensures |audio| > MaxFileSize ==> r == Err(HttpError(413, Literal(TooLarge)))
    ensures |audio| == 0 ==> r == Err(HttpError(400, Literal(EmptyFile)))
    ensures r.Ok? <==> 0 < |audio| <= MaxFileSize && recognise(audio, ContentType(declared)).Transcribed?
    ensures r.Ok? ==> var t := recognise(audio, ContentType(declared));
      r.value == SttResponse(t.text, t.confidence, t.language.GetOr("ko-KR"))
    ensures 0 < |audio| <= MaxFileSize && recognise(audio, ContentType(declared)).SttFailed? ==>
      r == Err(HttpError(500, Literal(recognise(audio, ContentType(declared)).message)))
  {
    if |audio| > MaxFileSize then Err(HttpError(413, Literal(TooLarge)))
    else if |audio| == 0 then Err(HttpError(400, Literal(EmptyFile)))
    else match recognise(audio, ContentType(declared))
      case SttFailed(message) => Err(HttpError(500, Literal(message)))
      case Transcribed(text, confidence, language) => Ok(SttResponse(text, confidence, language.GetOr("ko-KR")))
  }

  /** What `/transcribe-and-save` appends to the `messages` table, and what it answers. */
  datatype Saving = Saving(stored: seq<Message>, reply: Result<MessagesRouter.MessageResponse, HttpError>)

  /**
   * `/transcribe-and-save` as written: no size cap; empty audio and an
   * empty transcription are 400, a recogniser failure 500.  Otherwise the
   * recognised text is committed as a message for the user (default
   * "default_user"), and the reply is still a 500: the committed row's id
   * comes back from the database as a `uuid.UUID`, which the response
   * model's string `id` rejects, and the rollback in the handler cannot
   * undo the commit.  So the endpoint never answers successfully.
   */
  function Save(audio: seq<bv8>, declared: Option<string>, userId: Option<string>,
                recognise: (seq<bv8>, string) -> SttOutcome, freshId: nat, now: int): (s: Saving)
    ensures s.reply.Err?
    ensures |s.stored| <= 1 && forall k :: 0 <= k < |s.stored| ==> s.stored[k].id == freshId
    ensures |audio| == 0 ==> s == Saving([], Err(HttpError(400, Literal(EmptyFile))))
    ensures |audio| > 0 ==> match recognise(audio, ContentType(declared))
      case SttFailed(message) => s == Saving([], Err(HttpError(500, Literal(message))))
      case Transcribed(text, _, _) =>
        if text == "" then s == Saving([], Err(HttpError(400, Literal(NotRecognised))))
        else s == Saving([Message(freshId, userId.GetOr(DefaultUser), text, now)],
                         Err(HttpError(500, PrefixThenLibraryText(""))))
  {
    if |audio| == 0 then Saving([], Err(HttpError(400, Literal(EmptyFile))))
    else match recognise(audio, ContentType(declared))
      case SttFailed(message) => Saving([], Err(HttpError(500, Literal(message))))
      case Transcribed(text, _, _) =>
        if text == "" then Saving([], Err(HttpError(400, Literal(NotRecognised))))
        else Saving([Message(freshId, userId.GetOr(DefaultUser), text, now)], Err(HttpError(500, PrefixThenLibraryText(""))))
  }

  /** A recognised "hello" is stored, and the client is told the request failed. */
  lemma StoredButAnswered500()
    ensures var s := Save([0], None, None, (audio, contentType) => Transcribed("hello", 0.9, None), 0, 7);
      && s.stored == [Message(0, DefaultUser, "hello", 7)]
      && s.reply == Err(HttpError(500, PrefixThenLibraryText("")))
  {
  }

  /**
   * `/transcribe-and-save` as evidently intended: the same gates and the
   * same row, answered with the response model of the committed row (its
   * id as text, as the `/messages` endpoints answer).
   */
  function SaveIntended(audio: seq<bv8>, declared: Option<string>, userId: Option<string>,
                        recognise: (seq<bv8>, string) -> SttOutcome, freshId: nat, now: int): (s: Saving)
    requires IsUuid(freshId)
    ensures s.stored == Save(audio, declared, userId, recognise, freshId, now).stored
    ensures s.reply.Ok? <==> s.stored != []
    ensures s.stored == [] ==> s.reply == Save(audio, declared, userId, recognise, freshId, now).reply
    ensures s.reply.Ok? ==> |s.stored| == 1 && s.reply.value == MessagesRouter.Respond(s.stored[0])
  {
    var w := Save(audio, declared, userId, recognise, freshId, now);
    if w.stored == [] then w else Saving(w.stored, Ok(MessagesRouter.Respond(w.stored[0])))
  }

  /** With the intended reply, the id text answered finds the stored message again. */
  lemma IntendedReplyFindsRow(messages: seq<Message>, audio: seq<bv8>, declared: Option<string>, userId: Option<string>,
                              recognise: (seq<bv8>, string) -> SttOutcome, freshId: nat, now: int)
    requires forall k :: 0 <= k < |messages| ==> IsUuid(messages[k].id)
    requires IsUuid(freshId) && FindMessage(messages, freshId).None?
    ensures var s := SaveIntended(audio, declared, userId, recognise, freshId, now);
      s.reply.Ok? ==> MessagesRouter.GetMessageById(messages + s.stored, s.reply.value.id) == s.reply
  {
    var s := SaveIntended(audio, declared, userId, recognise, freshId, now);
    if s.reply.Ok? {
      var m := s.stored[0];
      assert m.id == freshId && s.stored == [m];
      MessagesRouter.GetAfterCreate(messages, m);
    }
  }

  /**
   * `transcribe_and_save_message`: the gates and the recogniser, then at
   * most one message appended, as `Save` says.
   */
  method TranscribeAndSave(db: Database, audio: seq<bv8>, declared: Option<string>, userId: Option<string>,
                           recognise: (seq<bv8>, string) -> SttOutcome, freshId: nat, now: int)
    returns (r: Result<MessagesRouter.MessageResponse, HttpError>)
    requires db.Valid() && IsUuid(freshId) && FindMessage(db.messages, freshId).None?
    modifies db
    ensures db.Valid()
    ensures var s := Save(audio, declared, userId, recognise, freshId, now);
      r == s.reply && db.messages == old(db.messages) + s.stored
    ensures db.histories == old(db.histories) && db.nextHistoryId == old(db.nextHistoryId)
  {
    if |audio| == 0 {
      return Err(HttpError(400, Literal(EmptyFile)));
    }
    match recognise(audio, ContentType(declared))
    case SttFailed(message) =>
      r := Err(HttpError(500, Literal(message)));
    case Transcribed(text, _, _) =>
      if text == "" {
        r := Err(HttpError(400, Literal(NotRecognised)));
      } else {
        var row := Message(freshId, userId.GetOr(DefaultUser), text, now);
        db.AddMessage(row);
        r := Err(HttpError(500, PrefixThenLibraryText("")));
      }
  }

  /** A JSON frame sent on the socket; `is_final` is always false. */
  datatype Frame =
    | TextFrame(text: string, fullText: string)
    | ErrorFrame(error: string)

  /** The stream's running transcript and the frames sent so far. */
  datatype Stream = Stream(transcript: string, frames: seq<Frame>)

  /** One received chunk: an empty chunk is skipped; a recognised text is appended with a space. */
  function Feed(st: Stream, chunk: seq<bv8>, recognise: (seq<bv8>, string) -> SttOutcome): Stream {
    if |chunk| == 0 then st
    else match recognise(chunk, StreamContentType)
      case SttFailed(message) => Stream(st.transcript, st.frames + [ErrorFrame(message)])
      case Transcribed(text, _, _) =>
        if text == "" then st
        else
          var transcript := st.transcript + text + " ";
          Stream(transcript, st.frames + [TextFrame(text, Strip(transcript))])
  }

  /** The stream after the chunks received in order. */
  function Run(chunks: seq<seq<bv8>>, recognise: (seq<bv8>, string) -> SttOutcome): Stream
    decreases |chunks|
  {
    if |chunks| == 0 then Stream("", [])
    else Feed(Run(chunks[..|chunks| - 1], recognise), chunks[|chunks| - 1], recognise)
  }

  /** `websocket_stt_stream`'s receive loop over the chunks received before the client disconnects. */
  method RunStream(chunks: seq<seq<bv8>>, recognise: (seq<bv8>, string) -> SttOutcome)
    returns (transcript: string, frames: seq<Frame>)
    ensures Stream(transcript, frames) == Run(chunks, recognise)
  {
    transcript, frames := "", [];
    var i := 0;
    while i < |chunks|
      invariant 0 <= i <= |chunks|
      invariant Stream(transcript, frames) == Run(chunks[..i], recognise)
    {
      assert chunks[..i + 1][..i] == chunks[..i];
      var chunk := chunks[i];
      if |chunk| > 0 {
        match recognise(chunk, StreamContentType)
        case SttFailed(message) =>
          frames := frames + [ErrorFrame(message)];
        case Transcribed(text, _, _) =>
          if text != "" {
            transcript := transcript + text + " ";
            frames := frames + [TextFrame(text, Strip(transcript))];
          }
      }
      i := i + 1;
    }
    assert chunks[..i] == chunks;
  }

  /** The texts the recogniser returned non-empty, in order. */
  function Recognised(chunks: seq<seq<bv8>>, recognise: (seq<bv8>, string) -> SttOutcome): seq<string>
    decreases |chunks|
  {
    if |chunks| == 0 then []
    else
      var before := Recognised(chunks[..|chunks| - 1], recognise);
      var chunk := chunks[|chunks| - 1];
      if |chunk| > 0 && recognise(chunk, StreamContentType).Transcribed?
        && recognise(chunk, StreamContentType).text != ""
      then before + [recognise(chunk, StreamContentType).text]
      else before
  }

  /** Each text followed by one space. */
  function Spaced(texts: seq<string>): string {
    if |texts| == 0 then "" else Spaced(texts[..|texts| - 1]) + texts[|texts| - 1] + " "
  }

  /** The texts of the text frames, in order. */
  function TextsOf(frames: seq<Frame>): seq<string> {
    if |frames| == 0 then []
    else match frames[|frames| - 1]
      case TextFrame(text, _) => TextsOf(frames[..|frames| - 1]) + [text]
      case ErrorFrame(_) => TextsOf(frames[..|frames| - 1])
  }

  lemma RunSnoc(chunks: seq<seq<bv8>>, chunk: seq<bv8>, recognise: (seq<bv8>, string) -> SttOutcome)
    ensures Run(chunks + [chunk], recognise) == Feed(Run(chunks, recognise), chunk, recognise)
  {
    assert (chunks + [chunk])[..|chunks|] == chunks;
  }

  lemma RecognisedSnoc(chunks: seq<seq<bv8>>, chunk: seq<bv8>, recognise: (seq<bv8>, string) -> SttOutcome)
    ensures Recognised(chunks + [chunk], recognise) ==
      Recognised(chunks, recognise) +
      (if |chunk| > 0 && recognise(chunk, StreamContentType).Transcribed?
          && recognise(chunk, StreamContentType).text != ""
       then [recognise(chunk, StreamContentType).text] else [])
  {
    assert (chunks + [chunk])[..|chunks|] == chunks;
  }

  /** The transcript is every recognised text, each followed by a space. */
  lemma {:induction false} TranscriptIsSpaced(chunks: seq<seq<bv8>>, recognise: (seq<bv8>, string) -> SttOutcome)
    ensures Run(chunks, recognise).transcript == Spaced(Recognised(chunks, recognise))
    decreases |chunks|
  {
    if |chunks| > 0 {
      var before := chunks[..|chunks| - 1];
      var chunk := chunks[|chunks| - 1];
      assert chunks == before + [chunk];
      TranscriptIsSpaced(before, recognise);
      RunSnoc(before, chunk, recognise);
      RecognisedSnoc(before, chunk, recognise);
      var texts := Recognised(before, recognise);
      assert forall t :: (texts + [t])[..|texts|] == texts;
    }
  }

  /** The text frames carry exactly the recognised texts, in order. */
  lemma {:induction false} FramesCarryRecognised(chunks: seq<seq<bv8>>, recognise: (seq<bv8>, string) -> SttOutcome)
    ensures TextsOf(Run(chunks, recognise).frames) == Recognised(chunks, recognise)
    decreases |chunks|
  {
    if |chunks| > 0 {
      var before := chunks[..|chunks| - 1];
      var chunk := chunks[|chunks| - 1];
      assert chunks == before + [chunk];
      FramesCarryRecognised(before, recognise);
      RunSnoc(before, chunk, recognise);
      RecognisedSnoc(before, chunk, recognise);
      var frames := Run(before, recognise).frames;
      assert forall f :: (frames + [f])[..|frames|] == frames;
    }
  }

  /** A text frame that is the last one sent reports the whole transcript, stripped. */
  predicate Current(st: Stream) {
    |st.frames| > 0 && st.frames[|st.frames| - 1].TextFrame? ==>
      st.frames[|st.frames| - 1].fullText == Strip(st.transcript)
  }

  lemma FeedKeepsCurrent(st: Stream, chunk: seq<bv8>, recognise: (seq<bv8>, string) -> SttOutcome)
    requires Current(st)
    ensures Current(Feed(st, chunk, recognise))
  {
    if |chunk| > 0 {
      match recognise(chunk, StreamContentType)
      case SttFailed(message) =>
        var frames := st.frames + [ErrorFrame(message)];
        assert frames[|frames| - 1] == ErrorFrame(message);
      case Transcribed(text, _, _) =>
        if text != "" {
          var transcript := st.transcript + text + " ";
          var frames := st.frames + [TextFrame(text, Strip(transcript))];
          assert frames[|frames| - 1] == TextFrame(text, Strip(transcript));
        }
    }
  }

  /** Whatever was received, a last text frame reports the whole transcript, stripped. */
  lemma {:induction false} LastTextFrameIsCurrent(chunks: seq<seq<bv8>>, recognise: (seq<bv8>, string) -> SttOutcome)
    ensures Current(Run(chunks, recognise))
    decreases |chunks|
  {
    if |chunks| > 0 {
      var before := chunks[..|chunks| - 1];
      var chunk := chunks[|chunks| - 1];
      assert chunks == before + [chunk];
      LastTextFrameIsCurrent(before, recognise);
      RunSnoc(before, chunk, recognise);
      FeedKeepsCurrent(Run(before, recognise), chunk, recognise);
    }
  }

  predicate NonEmpty(chunk: seq<bv8>) {
    |chunk| > 0
  }

  /** Chunks of length zero do not change the stream. */
  lemma {:induction false} EmptyChunksSkipped(chunks: seq<seq<bv8>>, recognise: (seq<bv8>, string) -> SttOutcome)
    ensures Run(chunks, recognise) == Run(Ordering.Filter(chunks, NonEmpty), recognise)
    decreases |chunks|
  {
    if |chunks| > 0 {
      var before := chunks[..|chunks| - 1];
      var last := chunks[|chunks| - 1];
      assert chunks == before + [last];
      EmptyChunksSkipped(before, recognise);
      Ordering.FilterSnoc(before, last, NonEmpty);
      RunSnoc(before, last, recognise);
      var kept := Ordering.Filter(before, NonEmpty);
      if NonEmpty(last) {
        assert Ordering.Filter(chunks, NonEmpty) == kept + [last];
        RunSnoc(kept, last, recognise);
      } else {
        assert Ordering.Filter(chunks, NonEmpty) == kept;
      }
    }
  }
}
