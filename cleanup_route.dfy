/**
 * The clean-up endpoint (src/routes/api.js, DELETE /cleanup). A download
 * folder is an object holding the names of its files; deleting a
 * file removes its name. The endpoint empties the folders the `type`
 * parameter selects, sparing `.gitkeep`, and reports how many files went.
 */
module CleanupRoute {
  import opened Wrappers
  import opened JsText

  /** The placeholder that keeps an empty folder in the repository; never deleted. */
  const Keep := ".gitkeep"

  /** A download folder: the names of the files in it. */
  class Folder {
    var files: set<string>

    constructor (files: set<string>)
      ensures this.files == files
    {
      this.files := files;
    }

    /**
     * The handler's loop over one folder: list it, then unlink every listed
     * file except `.gitkeep`, counting the deletions. Afterwards at most
     * `.gitkeep` is left, and the count is the number of other files.
     */
    method Clear() returns (deleted: nat)
      modifies this
      ensures files == old(files) * {Keep}
      ensures deleted == |old(files) - {Keep}|
    {
      var listed := files;
      var pending := listed;
      ghost var gone: set<string> := {};
      deleted := 0;
      while pending != {}
        invariant pending <= listed
        invariant gone == (listed - pending) - {Keep}
        invariant files == listed - gone
        invariant deleted == |gone|
        decreases |pending|
      {
        var file :| file in pending;
        VisitOne(listed, pending, file);
        if file != Keep {
          RemoveOne(listed, gone, file);
          files := files - {file};
          deleted := deleted + 1;
          gone := gone + {file};
        }
        pending := pending - {file};
      }
    }

    /** Visiting one more listed file adds it to the deleted ones, unless it is `.gitkeep`. */
    static lemma VisitOne(listed: set<string>, pending: set<string>, file: string)
      requires pending <= listed && file in pending
      ensures (listed - (pending - {file})) - {Keep} ==
        ((listed - pending) - {Keep}) + (if file == Keep then {} else {file})
      ensures file !in (listed - pending) - {Keep}
    {
    }

    /** Deleting one more file from what is left of the listing. */
    static lemma RemoveOne(listed: set<string>, gone: set<string>, file: string)
      ensures (listed - gone) - {file} == listed - (gone + {file})
    {
    }
  }

  /** `type` defaults to 'all' when absent. */
  function CleanupKind(kind: Option<string>): string
  {
    if kind.Some? then kind.value else "all"
  }

  predicate ClearsAudio(kind: string)
  {
    kind == "all" || kind == "audio"
  }

  predicate ClearsVideo(kind: string)
  {
    kind == "all" || kind == "video"
  }

  /** The only kinds that delete anything are 'all', 'audio' and 'video'; any other value is accepted and deletes nothing. */
  lemma CleanupKindCases(kind: Option<string>)
    ensures kind.None? ==> ClearsAudio(CleanupKind(kind)) && ClearsVideo(CleanupKind(kind))
    ensures ClearsAudio(CleanupKind(kind)) || ClearsVideo(CleanupKind(kind)) <==>
      kind.None? || kind.value in {"all", "audio", "video"}
  {
  }

  /** The decimal digit of a number below ten. */
  function DigitChar(d: nat): char
    requires d < 10
  {
    ['0', '1', '2', '3', '4', '5', '6', '7', '8', '9'][d]
  }

  /** A count as a template literal writes it: decimal, no sign, no leading zero. */
  function DecimalText(n: nat): (r: string)
    ensures |r| > 0 && AllDigits(r)
    ensures r[0] == '0' ==> n == 0
  {
    if n < 10 then [DigitChar(n)] else DecimalText(n / 10) + [DigitChar(n % 10)]
  }

  /** The digits of a count denote the count. */
  lemma {:induction false} DecimalTextValue(n: nat)
    ensures DigitsValue(DecimalText(n), 10) == n
  {
    if n < 10 {
      DigitsValueStep([], DigitChar(n));
    } else {
      DecimalTextValue(n / 10);
      DigitsValueStep(DecimalText(n / 10), DigitChar(n % 10));
    }
  }

  const DeletedPrefix := "Se eliminaron "

  /** `Se eliminaron ${deletedFiles} archivos` */
  function DeletedMessage(deletedFiles: nat): string
  {
    DeletedPrefix + DecimalText(deletedFiles) + " archivos"
  }

  /** The number in the message, read back with `parseInt`, is the count. */
  lemma DeletedMessageCount(deletedFiles: nat)
    ensures ParseInt(DeletedMessage(deletedFiles)[|DeletedPrefix|..], Radix10) == Num(deletedFiles)
  {
    var d := DecimalText(deletedFiles);
    DecimalTextValue(deletedFiles);
    assert DeletedMessage(deletedFiles)[|DeletedPrefix|..] == d + " archivos";
    ParseIntOfDigits(d, " archivos", Radix10);
  }

  /** The JSON body of a successful clean-up. */
  datatype CleanupResponse = CleanupResponse(message: string, deletedFiles: nat)

  /**
   * DELETE /cleanup: empty the audio folder for 'all' or 'audio' and the
   * video folder for 'all' or 'video', and report the deletions.
   */
  method Cleanup(kind: Option<string>, audio: Folder, video: Folder) returns (response: CleanupResponse)
    requires audio != video
    modifies audio, video
    ensures ClearsAudio(CleanupKind(kind)) ==> audio.files == old(audio.files) * {Keep}
    ensures !ClearsAudio(CleanupKind(kind)) ==> audio.files == old(audio.files)
    ensures ClearsVideo(CleanupKind(kind)) ==> video.files == old(video.files) * {Keep}
    ensures !ClearsVideo(CleanupKind(kind)) ==> video.files == old(video.files)
    ensures response.deletedFiles ==
      (if ClearsAudio(CleanupKind(kind)) then |old(audio.files) - {Keep}| else 0) +
      (if ClearsVideo(CleanupKind(kind)) then |old(video.files) - {Keep}| else 0)
    ensures response.message == DeletedMessage(response.deletedFiles)
  {
    var selected := CleanupKind(kind);
    var deletedFiles := 0;
    if selected == "all" || selected == "audio" {
      var n := audio.Clear();
      deletedFiles := deletedFiles + n;
    }
    if selected == "all" || selected == "video" {
      var n := video.Clear();
      deletedFiles := deletedFiles + n;
    }
    response := CleanupResponse(DeletedMessage(deletedFiles), deletedFiles);
  }
}
