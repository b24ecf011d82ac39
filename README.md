# SpaceNewsByNasa: a Dafny model of the posting run

The script `main.py` is run on a timer. Each run posts one NASA image to a
Telegram channel, and is meant to skip an image that was just posted. A run reads the
id of the last posted image from `last.txt`. It flips a coin between two
sources. APOD ("Astronomy Picture of the Day") returns one record, whose id
is its date. EPIC returns a list of Earth images; the run picks one at
random and derives its archive URL from the date and the image name, and
that URL is its id. The run stops when there is nothing to post or when
the fetched id equals the stored one. Otherwise it sends a photo with the
title as caption, then an HTML message with the title in bold above the
explanation, and only then overwrites `last.txt` with the new id.

The model has these modules:

- `Runtime`: Python's `None`-or-value and the exceptions the script can raise.
- `PyStr`: the `str` built-ins the script relies on. These are `strip()`,
  `split()` with no argument, and `split('-')`, with Python's own set of
  whitespace characters.
- `Fetchers`: `get_apod`, `get_epic` and `select_nasa_image`. Each is a
  function of the HTTP status, the decoded JSON and the injected random choices.
- `Publisher`: the two messages of `post_to_channel`, and a `Bot` class.
  The bot records every message that reaches the channel in a ghost trace.
- `LastPosted`: a `Store` class. Its field is the contents of `last.txt`,
  `None` while the file does not exist.
- `Orchestrator`: `main` as the method `RunOnce` on a `Store` and a `Bot`.
  It is proved against `RunSpec`, a function of the old file, the fetch
  result and the delivery of the sends. The lemmas about one run and about
  two runs in a row are stated on `RunSpec`.

Injected inputs:

- `coin`: `random.choice([True, False])`. True means APOD.
- `pick`: the index `random.choice` takes from the EPIC list. It is
  required to be in bounds only when that choice is made, that is, when the
  coin asks EPIC, the status is 200 and the list is non-empty.
- `delivery`: whether each of the two sends goes through.

A JSON key that `.get` does not find is `None`. A key read with `[...]`
that is missing raises `KeyError`. The skip is not a guarantee. The model keeps
these behaviours of the code, three of which let the same image be posted
again on a later run:

- The store strips what it reads but writes the id as given. An id with
  surrounding whitespace therefore never matches on the next run
  (`SecondRunSuppressedIff`).
- A record without an id and no file give `None == None`. That run reports
  "already posted" (`MissingIdWithoutFile`).
- A record without an id and an existing file get posted. Then
  `write_last_posted(None)` truncates the file and raises `TypeError`. The
  file reads as `""` afterwards, so the record is posted again on every
  run (`MissingIdPostedEveryRun`). One might expect the stored value to become
  the fetched id; the code instead leaves the file empty.
- A run whose text message fails has already sent the photo, and it leaves
  the file unchanged. The next run fetching the same record sends the photo
  again (`FailedTextRepeatsPhoto`).
- An f-string renders a `None` title or explanation as `None`.

## Model

| member | source | states |
|---|---|---|
| `PyStr.Strip` | main.py:21 | `strip()` leaves a result that neither starts nor ends with whitespace; the input is that result with whitespace before it (exactly the leading run) and whitespace after it |
| `PyStr.StripEmptyIff` | main.py:21 | `strip()` leaves nothing exactly when the input is all whitespace |
| `PyStr.StripUnique` | main.py:21 | whitespace, then a trimmed string, then whitespace, strips to exactly that trimmed string |
| `PyStr.StripFixedIff` | main.py:21 | `s.strip() == s` exactly when `s` has no leading and no trailing whitespace |
| `PyStr.StripIdempotent` | main.py:21 | stripping twice gives the same as stripping once |
| `PyStr.Words` | main.py:55 | `split()` gives no words exactly when the string is all whitespace |
| `PyStr.WordsAreWords` | main.py:55 | every word of `split()` is non-empty and holds no whitespace |
| `PyStr.FirstWord` | main.py:55 | `split()[0]` is the non-whitespace run after the leading whitespace, up to whitespace or the end |
| `PyStr.Split` | main.py:56 | `split('-')` gives at least one piece; no piece holds '-'; joining the pieces with '-' gives the input back |
| `PyStr.SplitCount` | main.py:56 | `split('-')` gives one more piece than there are '-' in the input |
| `PyStr.SplitJoin` | main.py:56 | `split('-')` undoes a join of pieces that hold no '-' |
| `Fetchers.GetApod` | main.py:27-42 | given a response, never raises; `None` exactly when the status is not 200; otherwise the id is the `date` field verbatim, the type is "apod", and title, explanation and url are copied unchanged |
| `Fetchers.ApodRoundTrip` | main.py:32-38 | the APOD body is recovered unchanged from the record it maps to; this follows directly from `GetApod`'s contract and adds nothing beyond it |
| `Fetchers.ParseEpicDate` | main.py:55-56 | an all-whitespace date raises IndexError; otherwise the first word splits on '-', and anything but three pieces raises ValueError with the piece count; a parsed date is its first word, equal to year-month-day with no '-' inside any of the three |
| `Fetchers.ParseEpicDateRaises` | main.py:55-56 | a date with a first word raises exactly when that word does not hold exactly two '-', and the error is ValueError of the '-' count plus one |
| `Fetchers.ParseEpicDateOf` | main.py:55-56 | a date whose first word is Y-M-D (no '-' inside the pieces) parses to that word with year Y, month M and day D |
| `Fetchers.EpicRecord` | main.py:53-67 | a missing "image" and then a missing "date" raise KeyError; otherwise an error while parsing the date is raised unchanged; an item with an image and a date that parses always gives a record; a derived record's id equals its url, which is the archive template filled with the parsed year, month, day and the image name; the type is "epic", the title is "EPIC Earth Image from " plus the date's first word, and the explanation is the fixed DSCOVR sentence |
| `Fetchers.EpicUrl` | main.py:57 | no contract; the body fills the archive template `https://epic.gsfc.nasa.gov/archive/natural/Y/M/D/jpg/<image>.jpg` |
| `Fetchers.EpicRecordFromDate` | main.py:54-66 | a date whose first word is Y-M-D gives the record whose id and url are `.../natural/Y/M/D/jpg/<image>.jpg` and whose title names Y-M-D |
| `Fetchers.EpicUrlExample` | main.py:57 | "2024-03-05 00:31:45" with image "epic_1b_20240305" gives `https://epic.gsfc.nasa.gov/archive/natural/2024/03/05/jpg/epic_1b_20240305.jpg` |
| `Fetchers.GetEpic` | main.py:44-70 | `None` exactly when the status is not 200 or the array is empty; otherwise it raises exactly when deriving the picked element raises, with that element's exception, and a record is the one derived from the picked element |
| `Fetchers.SelectNasaImage` | main.py:72-76 | the result is that of `GetApod` when the coin is True and that of `GetEpic` with the picked index otherwise; only the EPIC branch can raise; a record is APOD exactly when the coin is True; `None` exactly when the chosen fetcher fails soft |
| `Publisher.Render` | main.py:83 | no contract; the body gives a `str` unchanged and `None` as the text "None", as an f-string placeholder does |
| `Publisher.FormatText` | main.py:83 | no contract; the body builds `<b>title</b>`, a blank line and the explanation, each rendered by `Render`; `ParseFormatted` and `PostedTextReadsBack` state what it preserves |
| `Publisher.PostMessages` | main.py:78-85 | a post is two messages to the configured chat, both in HTML mode: first the photo at the record's url with the title as caption, then a text message |
| `Publisher.ParseFormatted` | main.py:83 | the title (when it holds no '<') and the explanation are read back unchanged from `<b>title</b>` followed by a blank line and the explanation |
| `Publisher.PostedTextReadsBack` | main.py:83-85 | the text of a post carries the rendered title in bold and the rendered explanation after it |
| `Publisher.Bot.constructor` | main.py:88 | a new bot is bound to the configured chat and has sent nothing |
| `Publisher.Bot.SendPhoto` | main.py:84 | a delivered photo is appended to the trace; a failed one raises and appends nothing |
| `Publisher.Bot.SendMessage` | main.py:85 | a delivered text is appended to the trace; a failed one raises and appends nothing |
| `Publisher.Bot.PostToChannel` | main.py:78-85 | the trace grows by the photo and then the text, as far as the sends go through; it raises when either send fails |
| `LastPosted.ReadValue` | main.py:17-21 | no file reads as `None`; a file reads as its contents with the surrounding whitespace removed |
| `LastPosted.WrittenFile` | main.py:23-25 | no contract; the body gives the file after a write: the id as given, or the empty file left by the truncating open when the id is `None` |
| `LastPosted.WriteError` | main.py:23-25 | no contract; the body gives TypeError exactly when the id is `None`, since `file.write` accepts only a `str` |
| `LastPosted.ReadAfterWrite` | main.py:17-25 | reading after writing an id gives the stripped id, which equals the id exactly when it has no surrounding whitespace |
| `LastPosted.ReadAfterWriteOfNone` | main.py:23-25 | after writing `None` has failed, the file reads as the empty string |
| `LastPosted.Store.constructor` | main.py:15 | the store starts from the given state of last.txt |
| `LastPosted.Store.Read` | main.py:17-21 | returns what `ReadValue` gives for the current file and changes nothing |
| `LastPosted.Store.Write` | main.py:23-25 | the file holds a written id as given, without stripping; writing `None` raises TypeError and leaves the file empty |
| `Orchestrator.RunSpec` | main.py:87-103 | no contract; the body is `main` as a function of the file, the fetch result, the chat and the delivery: a raising fetch aborts, `None` gives no data, an id equal to the stored value is already posted, otherwise the completed sends and, after both, the write; the lemmas below state its properties |
| `Orchestrator.RunOnce` | main.py:87-103 | the outcome, the new file and the messages added to the bot's trace are those of `RunSpec` for the old file and the selected fetch |
| `Orchestrator.NothingFetchedNothingChanges` | main.py:91-95 | a fetch that gives `None` or raises sends nothing and leaves the file unchanged |
| `Orchestrator.FailSoftRun` | main.py:93-95 | a status other than 200 from the chosen fetcher, or an empty EPIC array, ends the run with no data, no message and the file unchanged |
| `Orchestrator.DuplicateSuppressed` | main.py:97-99 | a record whose id equals the value read from the store is reported as already posted; nothing is sent and the file is unchanged |
| `Orchestrator.SuppressedIff` | main.py:97-99 | a run that fetches a record reports it as already posted exactly when its id equals what the file reads as |
| `Orchestrator.MissingIdWithoutFile` | main.py:97 | with no file, a record without an id counts as already posted |
| `Orchestrator.NewRecordPosted` | main.py:101-102 | a new record with an id is sent as the photo and then the text, and the file then holds its id |
| `Orchestrator.SendsIff` | main.py:93-101 | messages are sent exactly when a record was fetched, its id differs from the stored value, and the photo send goes through |
| `Orchestrator.FileChangesOnlyAfterBothSends` | main.py:101-102 | the file changes only in a run that sent both messages of the fetched record, and then it holds what writing that record's id leaves |
| `Orchestrator.FailedTextRepeatsPhoto` | main.py:97-102 | a run whose text send fails sends only the photo and leaves the file as it was, so the next run with the same record sends the photo again |
| `Orchestrator.SecondRunSuppressedIff` | main.py:97-102 | after a record with id `id` was posted, fetching it again is suppressed exactly when `id` has no surrounding whitespace |
| `Orchestrator.MissingIdPostedEveryRun` | main.py:101-102 | with a file present, a record without an id is posted, the write then raises TypeError, and the file is left empty |

## Left out

- HTTP requests and JSON decoding are foreign library calls. The status code and the decoded fields are inputs. JSON values that are not strings are not modelled, and neither is a body that fails to decode, nor `requests.get` itself raising (a connection error or timeout at main.py:29 and main.py:46). At the level of a run, a fetch that raises is covered by `NothingFetchedNothingChanges`.
- The Telegram library, `asyncio` and `await` are network plumbing. A send is an append to a ghost trace. Its failure is the injected `delivery`, and a failed send is taken to deliver nothing.
- `Bot(token=...)` validating its token happens inside the library; it is not modelled.
- File I/O is a field holding the file's contents. Text-mode newline translation and the file encoding are not modelled. A failure of `open` itself is not modelled.
- Environment and dotenv configuration (main.py:10-15): the channel id is a parameter of the bot. The API key only appears in request URLs, which are not modelled.
- Randomness (main.py:53 and main.py:73) is the injected `pick` and `coin`. Uniformity of the choice is not modelled.
- `print` logging, the unused `today` value (main.py:90) and the final "Posted:" message are not modelled. The outcome `Posted` stands for the normal return.
