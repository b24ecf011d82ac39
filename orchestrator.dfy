/** One invocation of `main` in main.py: read the last-posted id, fetch a
    record, stop when there is none or it was already posted, otherwise
    post it and store its id. An exception ends the run where it is raised. */
module Orchestrator {
  import opened Runtime
  import opened PyStr
  import opened Fetchers
  import opened Publisher
  import opened LastPosted

  /** How a run ends. */
  datatype Outcome = NoData | AlreadyPosted | Posted | Aborted(error: Exception)

  /** What a run leaves behind: how it ended, the file, and the messages it sent. */
  datatype Run = Run(outcome: Outcome, file: Option<string>, sent: seq<Message>)

  /** A run that starts with `file` and fetches `fetched`. */
  function RunSpec(file: Option<string>, fetched: Fetched, chatId: Option<string>, delivery: Delivery): Run {
    match fetched
    case Raised(e) => Run(Aborted(e), file, [])
    case Ok(None) => Run(NoData, file, [])
    case Ok(Some(data)) =>
      if data.id == ReadValue(file) then Run(AlreadyPosted, file, [])
      else
        var sent := PostMessages(chatId, data)[..Completed(delivery)];
        if delivery != Delivered then Run(Aborted(NetworkError), file, sent)
        else if WriteError(data.id).Some? then Run(Aborted(WriteError(data.id).value), WrittenFile(data.id), sent)
        else Run(Posted, WrittenFile(data.id), sent)
  }

  /** `main`: `coin` and `pick` stand for the two calls of `random.choice`,
      `delivery` for what the network does with the two sends. */
  method RunOnce(store: Store, bot: Bot, coin: bool, apod: ApodResponse, epic: EpicResponse,
                 pick: nat, delivery: Delivery) returns (outcome: Outcome)
    requires !coin && epic.status == OK_STATUS && epic.items != [] ==> pick < |epic.items|
    modifies store, bot
    ensures var run := RunSpec(old(store.file), SelectNasaImage(coin, apod, epic, pick), bot.chatId, delivery);
      outcome == run.outcome && store.file == run.file && bot.sent == old(bot.sent) + run.sent
  {
    var lastPosted := store.Read();
    var nasaData := SelectNasaImage(coin, apod, epic, pick);
    if nasaData.Raised? {
      return Aborted(nasaData.error);
    }
    if nasaData.value.None? {
      return NoData;
    }
    var data := nasaData.value.value;
    if data.id == lastPosted {
      return AlreadyPosted;
    }
    var err := bot.PostToChannel(data, delivery);
    if err.Some? {
      return Aborted(err.value);
    }
    err := store.Write(data.id);
    if err.Some? {
      return Aborted(err.value);
    }
    outcome := Posted;
  }

  /** A fetch that gives nothing or raises sends nothing and leaves the file alone. */
  lemma NothingFetchedNothingChanges(file: Option<string>, fetched: Fetched, chatId: Option<string>, delivery: Delivery)
    requires fetched == Ok(None) || fetched.Raised?
    ensures var run := RunSpec(file, fetched, chatId, delivery);
      run.sent == [] && run.file == file
      && run.outcome == (if fetched.Raised? then Aborted(fetched.error) else NoData)
  {
  }

  /** Any status but 200 from the chosen fetcher, or an empty EPIC array,
      ends the run quietly with no change anywhere. */
  lemma FailSoftRun(file: Option<string>, coin: bool, apod: ApodResponse, epic: EpicResponse, pick: nat,
                    chatId: Option<string>, delivery: Delivery)
    requires !coin && epic.status == OK_STATUS && epic.items != [] ==> pick < |epic.items|
    requires if coin then apod.status != OK_STATUS else epic.status != OK_STATUS || epic.items == []
    ensures RunSpec(file, SelectNasaImage(coin, apod, epic, pick), chatId, delivery) == Run(NoData, file, [])
  {
  }

  /** A record whose id equals what the store reads is not posted again. */
  lemma DuplicateSuppressed(file: Option<string>, data: Record, chatId: Option<string>, delivery: Delivery)
    requires data.id == ReadValue(file)
    ensures RunSpec(file, Ok(Some(data)), chatId, delivery) == Run(AlreadyPosted, file, [])
  {
  }

  /** With no file and a record without an id, `None == None` holds and the
      run reports the record as already posted. */
  lemma MissingIdWithoutFile(data: Record, chatId: Option<string>, delivery: Delivery)
    requires data.id.None?
    ensures RunSpec(None, Ok(Some(data)), chatId, delivery).outcome == AlreadyPosted
  {
  }

  /** A new record is sent as the photo and then the text, and only then
      is its id written. */
  lemma NewRecordPosted(file: Option<string>, data: Record, id: string, chatId: Option<string>)
    requires data.id == Some(id) && Some(id) != ReadValue(file)
    ensures var run := RunSpec(file, Ok(Some(data)), chatId, Delivered);
      && run.outcome == Posted
      && run.sent == [Photo(chatId, data.url, data.title, PARSE_MODE),
                      Text(chatId, FormatText(data.title, data.explanation), PARSE_MODE)]
      && run.file == Some(id)
  {
  }

  /** Messages go out exactly when a record was fetched, it differs from
      the stored id, and the first send goes through. */
  lemma SendsIff(file: Option<string>, fetched: Fetched, chatId: Option<string>, delivery: Delivery)
    ensures RunSpec(file, fetched, chatId, delivery).sent != [] <==>
      fetched.Ok? && fetched.value.Some? && fetched.value.value.id != ReadValue(file) && delivery != PhotoFails
  {
  }

  /** The file changes only in a run that sent both messages of the fetched
      record; a failed send leaves it as it was. */
  lemma FileChangesOnlyAfterBothSends(file: Option<string>, fetched: Fetched, chatId: Option<string>, delivery: Delivery)
    ensures var run := RunSpec(file, fetched, chatId, delivery);
      run.file != file ==>
        && fetched.Ok? && fetched.value.Some? && delivery == Delivered
        && run.sent == PostMessages(chatId, fetched.value.value)
        && run.file == WrittenFile(fetched.value.value.id)
  {
  }

  /** A failed text send leaves the file untouched after the photo went
      out, so the next run fetching the same record posts the photo again. */
  lemma FailedTextRepeatsPhoto(file: Option<string>, data: Record, chatId: Option<string>, next: Delivery)
    requires data.id != ReadValue(file)
    requires next != PhotoFails
    ensures var first := RunSpec(file, Ok(Some(data)), chatId, TextFails);
      && first == Run(Aborted(NetworkError), file, [Photo(chatId, data.url, data.title, PARSE_MODE)])
      && RunSpec(first.file, Ok(Some(data)), chatId, next).sent[0] == Photo(chatId, data.url, data.title, PARSE_MODE)
  {
    var ms := PostMessages(chatId, data);
    assert ms[..1] == [ms[0]];
    assert RunSpec(file, Ok(Some(data)), chatId, TextFails).file == file;
    var second := RunSpec(file, Ok(Some(data)), chatId, next);
    assert second.sent == ms[..Completed(next)];
  }

  /** Suppression across runs: after a record with id `id` was posted, a
      second run that fetches it again stays quiet exactly when `id` has no
      surrounding whitespace, since the store strips what it reads. */
  lemma SecondRunSuppressedIff(file: Option<string>, data: Record, id: string, chatId: Option<string>, delivery: Delivery)
    requires data.id == Some(id) && Some(id) != ReadValue(file)
    ensures var first := RunSpec(file, Ok(Some(data)), chatId, Delivered);
      var second := RunSpec(first.file, Ok(Some(data)), chatId, delivery);
      first.outcome == Posted && (second.outcome == AlreadyPosted <==> Trimmed(id))
  {
    NewRecordPosted(file, data, id, chatId);
    ReadAfterWrite(id);
    SuppressedIff(Some(id), data, chatId, delivery);
  }

  /** A run that fetches `data` stays quiet exactly when its id equals what the file reads as. */
  lemma SuppressedIff(file: Option<string>, data: Record, chatId: Option<string>, delivery: Delivery)
    ensures RunSpec(file, Ok(Some(data)), chatId, delivery).outcome == AlreadyPosted <==> data.id == ReadValue(file)
  {
  }

  /** A fetched record without an id is posted on every run once the file
      exists: the run posts, fails to write `None`, and leaves an empty
      file, which reads as "" and never equals `None`. */
  lemma MissingIdPostedEveryRun(contents: string, data: Record, chatId: Option<string>)
    requires data.id.None?
    ensures var run := RunSpec(Some(contents), Ok(Some(data)), chatId, Delivered);
      && run.outcome == Aborted(TypeError)
      && run.sent == PostMessages(chatId, data)
      && run.file == Some("")
  {
  }
}
