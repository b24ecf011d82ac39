/** The last-posted store (`read_last_posted`, `write_last_posted` in
    main.py). The file last.txt is a field: `None` while it does not
    exist, otherwise its contents. */
module LastPosted {
  import opened Runtime
  import opened PyStr

  /** What `read_last_posted` returns for the given file: nothing when
      there is no file, otherwise the contents without surrounding whitespace. */
  function ReadValue(file: Option<string>): (r: Option<string>)
    ensures r.None? <==> file.None?
    ensures r.Some? ==> Trimmed(r.value)
    ensures r.Some? ==> exists i :: Stripped(file.value, i, r.value)
  {
    match file
    case None => None
    case Some(contents) => Some(Strip(contents))
  }

  /** The file after `write_last_posted(postId)`. Opening for writing
      truncates the file first, so writing `None`, which raises, leaves it empty. */
  function WrittenFile(postId: Option<string>): Option<string> {
    match postId
    case Some(id) => Some(id)
    case None => Some("")
  }

  /** What `write_last_posted(postId)` raises: `file.write` accepts only a `str`. */
  function WriteError(postId: Option<string>): Option<Exception> {
    if postId.None? then Some(TypeError) else None
  }

  /** Writing is not stripped but reading is: the next read gives back the
      id exactly when it neither starts nor ends with whitespace. */
  lemma ReadAfterWrite(id: string)
    ensures ReadValue(WrittenFile(Some(id))) == Some(Strip(id))
    ensures ReadValue(WrittenFile(Some(id))) == Some(id) <==> Trimmed(id)
  {
    StripFixedIff(id);
  }

  /** A failed write of `None` leaves a file that reads as the empty string, not as `None`. */
  lemma ReadAfterWriteOfNone()
    ensures ReadValue(WrittenFile(None)) == Some("")
  {
  }

  class Store {
    /** The contents of last.txt, `None` while the file does not exist. */
    var file: Option<string>

    constructor (file: Option<string>)
      ensures this.file == file
    {
      this.file := file;
    }

    /** `read_last_posted`. */
    method Read() returns (r: Option<string>)
      ensures r == ReadValue(file)
    {
      r := ReadValue(file);
    }

    /** `write_last_posted`: overwrite the file with `postId` as given. */
    method Write(postId: Option<string>) returns (err: Option<Exception>)
      modifies this
      ensures file == WrittenFile(postId)
      ensures err == WriteError(postId)
    {
      file := Some("");
      if postId.None? {
        return Some(TypeError);
      }
      file := Some(postId.value);
      err := None;
    }
  }
}
