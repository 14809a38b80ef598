/** Taking the `/add` and `/delete` commands apart: the text after the command word is
    trimmed, then split into date, time and text, or read as a number. */
module Commands {
  import opened Common
  import opened Text

  /** The parts of an `/add` command: the text after the command word, trimmed and
      split at the first two spaces. */
  function AddArgs(message: string): (parts: seq<string>)
    ensures 1 <= |parts| <= 3
  {
    SplitN(TrimSpace(TrimPrefix(message, "/add")), ' ', 3)
  }

  /** An accepted `/add` command has exactly three parts; the first two hold no space,
      and joining the three with single spaces gives the trimmed argument text back. */
  lemma AddArgsAccepted(message: string)
    requires |AddArgs(message)| >= 3
    ensures var parts := AddArgs(message);
            |parts| == 3 && ' ' !in parts[0] && ' ' !in parts[1]
            && parts[0] + " " + parts[1] + " " + parts[2] == TrimSpace(TrimPrefix(message, "/add"))
  {
    var args := TrimSpace(TrimPrefix(message, "/add"));
    SplitThree(args, ' ');
  }

  /** What the text after `/delete` says. */
  datatype DeleteArg = NoId | NotANumber | EventId(id: int)

  /** The argument of a `/delete` command: missing when only white space follows the
      command word, otherwise the `Atoi` reading of the trimmed text. */
  function ParseDeleteArg(message: string): (r: DeleteArg)
    ensures var args := TrimSpace(TrimPrefix(message, "/delete"));
            && (r.NoId? <==> |args| == 0)
            && (r.NotANumber? <==> |args| > 0 && Atoi(args).None?)
            && (r.EventId? ==> Atoi(args) == Some(r.id))
  {
    var args := TrimSpace(TrimPrefix(message, "/delete"));
    if |args| == 0 then NoId
    else match Atoi(args)
      case None => NotANumber
      case Some(id) => EventId(id)
  }

  /** Trimming a single leading space off a text that neither starts nor ends with
      white space gives the text. */
  lemma TrimSpaceLeadingBlank(s: string)
    requires |s| > 0 && !IsSpace(s[0]) && !IsSpace(s[|s| - 1])
    ensures TrimSpace(" " + s) == s
  {
    assert (" " + s)[1..] == s;
    assert TrimLeft(" " + s) == TrimLeft(s) == s;
    assert TrimRight(s) == s;
  }

  /** An id as the `/list` answer prints it, typed after `/delete`, is the id the
      delete acts on. */
  lemma DeleteListedId(id: int)
    requires MinInt64 <= id <= MaxInt64
    ensures ParseDeleteArg("/delete " + FormatInt(id)) == EventId(id)
  {
    var n := FormatInt(id);
    var message := "/delete " + n;
    assert "/delete" <= message;
    assert TrimPrefix(message, "/delete") == " " + n;
    AtoiFormatInt(id);
    TrimSpaceLeadingBlank(n);
  }
}
