/** The validator the add and edit screens share: three rules checked in
    order, the first that fails deciding the message. Lengths are
    JavaScript lengths, in UTF-16 code units. */
module NoteForm {
  import opened Text

  const MaxTitle: nat := 100
  const MaxBody: nat := 5000

  /** The rule a title and body break, if any. */
  datatype Verdict = Ok | TitleRequired | TitleTooLong | BodyTooLong

  /** The screen asking; the two word their messages differently. */
  datatype FormScreen = AddForm | EditForm

  /** `validate`: the trimmed title must be non-empty, the raw title at
      most 100 code units long and the body at most 5000. */
  function Validate(title: string, body: string): (r: Verdict)
    ensures r == TitleRequired <==> AllTrimmable(title)
    ensures r == TitleTooLong <==> !AllTrimmable(title) && Utf16Length(title) > MaxTitle
    ensures r == BodyTooLong <==>
      !AllTrimmable(title) && Utf16Length(title) <= MaxTitle && Utf16Length(body) > MaxBody
    ensures r == Ok <==>
      !AllTrimmable(title) && Utf16Length(title) <= MaxTitle && Utf16Length(body) <= MaxBody
  {
    TrimEmptyIff(title);
    if Trim(title) == [] then TitleRequired
    else if Utf16Length(title) > MaxTitle then TitleTooLong
    else if Utf16Length(body) > MaxBody then BodyTooLong
    else Ok
  }

  /** The snackbar text for a broken rule. */
  function Message(screen: FormScreen, v: Verdict): string
    requires v != Ok
  {
    match v
    case TitleRequired => "Title is required"
    case TitleTooLong =>
      if screen == AddForm then "Title too long (max 100)" else "Title too long (max 100 chars)"
    case BodyTooLong =>
      if screen == AddForm then "Body too long (max 5000)" else "Body too long (max 5000 chars)"
  }

  /** The snackbar text when loading or saving the list throws. */
  const SaveFailed: string := "Failed to save note"

  /** How a press of Save ends: refused with the validator's message, the
      list written (and the screen left), or the snackbar reporting that
      loading or saving threw. */
  datatype SaveOutcome = Rejected(message: string) | Saved | Failed(message: string)

  /** A title as the screens store it: non-empty, no white space at either
      end, and at most 100 code units long. */
  predicate StoredTitle(t: string)
  {
    t != [] && !IsTrimmable(t[0]) && !IsTrimmable(t[|t| - 1]) && Utf16Length(t) <= MaxTitle
  }

  /** A title that passes is stored trimmed, and the trimmed title is
      non-empty, at most 100 code units long and has no white space at
      either end. */
  lemma AcceptedTitle(title: string, body: string)
    requires Validate(title, body) == Ok
    ensures StoredTitle(Trim(title)) && Trim(Trim(title)) == Trim(title)
  {
    TrimEmptyIff(title);
    TrimUtf16Length(title);
    TrimBounds(title);
  }

  /** The length rule reads the untrimmed title: padding a short title with
      enough trailing spaces is refused as too long, although the title
      that would be stored is the short one. */
  lemma PaddedTitleTooLong(core: string, pad: string, body: string)
    requires core != [] && Trim(core) == core && Utf16Length(core) <= MaxTitle
    requires AllTrimmable(pad) && Utf16Length(core) + Utf16Length(pad) > MaxTitle
    ensures Trim(core + pad) == core
    ensures Validate(core + pad, body) == TitleTooLong
  {
    TrimDropsPadding(core, pad);
    Utf16LengthConcat(core, pad);
    TrimEmptyIff(core + pad);
  }
}
