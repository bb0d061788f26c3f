/**
 * The decision logic of the three request handlers of the web UI: `/check`
 * (search form), `/view/<number>` (result page) and `/report` (spam report
 * form). Each handler is a pure function. `Check` and `Report` map the
 * submitted fields to an `Outcome`: the flash messages queued, the report
 * handed to the history store (at most one), and the HTTP response. `View`
 * maps the number in the URL, the database and the e-mail validator to a
 * `Response`: a 400, a redirect, or the result page.
 */
module WebApp {
  import opened Wrappers
  import opened PyStr
  import opened Whoistel

  /** Longest comment kept in a report. */
  const MaxCommentLength: nat := 1024

  datatype Target = Index | ViewNumber(number: string)

  datatype Category = Error | Info | Success

  datatype Flash = Flash(message: string, category: Category)

  /** The arguments of one `add_report` call. */
  datatype SpamReport = SpamReport(number: string, date: Option<string>, isSpam: bool, comment: string)

  datatype Response =
    | Redirect(target: Target)
    | ErrorPage(status: nat, message: string)
    | ResultPage(number: string, result: LookupResult)

  datatype Outcome = Outcome(flashes: seq<Flash>, stored: Option<SpamReport>, response: Response)

  /** Submitted form fields; a field that was not sent is absent. */
  type Form = map<string, string>

  /** `request.form.get(key)` */
  function Field(form: Form, key: string): (r: Option<string>)
    ensures r.Some? <==> key in form
    ensures r.Some? ==> r.value == form[key]
  {
    if key in form then Some(form[key]) else None
  }

  const MissingNumberMessage := "Veuillez saisir un numéro."
  const InvalidNumberMessage :=
    "Le numéro de téléphone est invalide. Il doit contenir exactement 10 chiffres (ex: 0123456789)."
  const BadViewMessage := "Le format du numéro est invalide."
  const ReportBadNumberMessage := "Erreur interne : Numéro de téléphone invalide lors du signalement."
  const TruncatedMessage := "Votre commentaire a été tronqué à " + NatToString(MaxCommentLength) + " caractères."
  const EmptyReportMessage := "Veuillez cocher la case spam, ajouter un commentaire ou une date."
  const StoredMessage := "Signalement enregistré."

  function BadDateMessage(date: string): string {
    "Le format de la date '" + date + "' est invalide (attendu: AAAA-MM-JJ)."
  }

  // ---------------------------------------------------------------------
  // /check
  // ---------------------------------------------------------------------

  /** The search form: a missing or empty number and a number whose canonical
      form is not ten digits both go back to the index with an error; any other
      number is sent on to its canonical result page. */
  function Check(form: Form): (o: Outcome)
    ensures o.stored == None
    ensures o.response.Redirect?
    ensures !Truthy(Field(form, "number")) ==>
              o == Outcome([Flash(MissingNumberMessage, Error)], None, Redirect(Index))
    ensures (Truthy(Field(form, "number")) && !IsValidPhoneFormat(CleanPhoneNumber(Field(form, "number")))) ==>
              o == Outcome([Flash(InvalidNumberMessage, Error)], None, Redirect(Index))
    ensures o.response.target.ViewNumber? <==>
              Truthy(Field(form, "number")) && IsValidPhoneFormat(CleanPhoneNumber(Field(form, "number")))
    ensures o.response.target.ViewNumber? ==>
              o.flashes == [] && o.response.target.number == CleanPhoneNumber(Field(form, "number"))
  {
    var raw := Field(form, "number");
    if !Truthy(raw) then
      Outcome([Flash(MissingNumberMessage, Error)], None, Redirect(Index))
    else
      var tel := CleanPhoneNumber(raw);
      if !IsValidPhoneFormat(tel) then
        Outcome([Flash(InvalidNumberMessage, Error)], None, Redirect(Index))
      else
        Outcome([], None, Redirect(ViewNumber(tel)))
  }

  // ---------------------------------------------------------------------
  // /view/<number>
  // ---------------------------------------------------------------------

  /** The result page: a number whose canonical form is invalid is a 400; a
      number that is not already canonical is redirected to its canonical
      form; only a canonical, valid number is looked up. */
  function View(db: Database, validEmail: string -> bool, number: string): (r: Response)
    ensures r.ErrorPage? <==> !IsValidPhoneFormat(CleanPhoneNumber(Some(number)))
    ensures r.ErrorPage? ==> r.status == 400 && r.message == BadViewMessage
    ensures r.Redirect? <==>
              IsValidPhoneFormat(CleanPhoneNumber(Some(number))) && CleanPhoneNumber(Some(number)) != number
    ensures r.Redirect? ==> r.target == ViewNumber(CleanPhoneNumber(Some(number)))
    ensures r.ResultPage? ==>
              IsValidPhoneFormat(number) && CleanPhoneNumber(Some(number)) == number
              && r.number == number && r.result == FullInfo(db, number, validEmail)
  {
    var cleaned := CleanPhoneNumber(Some(number));
    if !IsValidPhoneFormat(cleaned) then ErrorPage(400, BadViewMessage)
    else if cleaned != number then Redirect(ViewNumber(cleaned))
    else ResultPage(cleaned, FullInfo(db, cleaned, validEmail))
  }

  /** A valid number that does not begin with `0033` is shown directly. */
  lemma ViewShowsValidNumber(db: Database, validEmail: string -> bool, t: string)
    requires IsValidPhoneFormat(t) && !("0033" <= t)
    ensures View(db, validEmail, t) == ResultPage(t, FullInfo(db, t, validEmail))
  {
    CleanFixesValidNumber(t);
  }

  /** Following a redirect of the result page lands on a page that is shown,
      unless its canonical form begins with `0033`. */
  lemma ViewRedirectThenShows(db: Database, validEmail: string -> bool, number: string)
    requires View(db, validEmail, number).Redirect?
    requires !("0033" <= CleanPhoneNumber(Some(number)))
    ensures var c := CleanPhoneNumber(Some(number));
            View(db, validEmail, c) == ResultPage(c, FullInfo(db, c, validEmail))
  {
    ViewShowsValidNumber(db, validEmail, CleanPhoneNumber(Some(number)));
  }

  /** Whatever the search form accepts and does not canonicalise to a
      `0033` number is shown when the redirect is followed. */
  lemma CheckThenViewShows(db: Database, validEmail: string -> bool, form: Form)
    requires Check(form).response.target.ViewNumber?
    requires !("0033" <= CleanPhoneNumber(Field(form, "number")))
    ensures var t := Check(form).response.target.number;
            View(db, validEmail, t) == ResultPage(t, FullInfo(db, t, validEmail))
  {
    ViewShowsValidNumber(db, validEmail, Check(form).response.target.number);
  }

  /** As written, the two handlers disagree on valid numbers beginning `0033`:
      the search form sends `+330` followed by the rest of such a number on to
      its result page, and the result page answers 400. */
  lemma CheckAcceptsWhatViewRejects(db: Database, validEmail: string -> bool, t: string)
    requires IsValidPhoneFormat(t) && "0033" <= t
    ensures Check(map["number" := "+330" + t[1..]]).response == Redirect(ViewNumber(t))
    ensures View(db, validEmail, t) == ErrorPage(400, BadViewMessage)
  {
    CleanShortensValid0033(t);
    assert IsDigits(t[1..]);
    CleanTrunkDigits(t[1..]);
    assert "0" + t[1..] == t;
  }

  // ---------------------------------------------------------------------
  // /report
  // ---------------------------------------------------------------------

  /** The comment that is stored: surrounding whitespace removed, then cut to
      `MaxCommentLength` characters. */
  function StoredComment(rawComment: Option<string>): (c: string)
    ensures |c| <= MaxCommentLength
    ensures c <= Strip(rawComment.GetOr(""))
    ensures |Strip(rawComment.GetOr(""))| <= MaxCommentLength ==> c == Strip(rawComment.GetOr(""))
  {
    Take(Strip(rawComment.GetOr("")), MaxCommentLength)
  }

  /** `|stripped comment| > MaxCommentLength`: the comment will be cut. */
  predicate CommentTruncated(form: Form) {
    |Strip(Field(form, "comment").GetOr(""))| > MaxCommentLength
  }

  /** The notice queued before the date and field checks. */
  function TruncationNotice(form: Form): (n: seq<Flash>)
    ensures Flash(TruncatedMessage, Info) in n <==> CommentTruncated(form)
    ensures forall f :: f in n ==> f == Flash(TruncatedMessage, Info)
  {
    if CommentTruncated(form) then [Flash(TruncatedMessage, Info)] else []
  }

  /** The date field after the emptiness test: an empty date counts as none. */
  function ReportDate(form: Form): (d: Option<string>)
    ensures d.Some? <==> Truthy(Field(form, "date"))
    ensures d.Some? ==> d == Field(form, "date")
  {
    if Truthy(Field(form, "date")) then Field(form, "date") else None
  }

  /** The report form. Checks, in order: a number whose canonical form is
      empty, a canonical number that is not valid, a date that does not parse
      as `YYYY-MM-DD`, and a report with neither the spam box, a comment nor a
      date. Only a report that passes all four is handed to the store. */
  function Report(form: Form, parsesDate: string -> bool): (o: Outcome)
    ensures o.response.Redirect?
    ensures o.stored.Some? <==>
              var number := CleanPhoneNumber(Field(form, "number"));
              number != "" && IsValidPhoneFormat(number)
              && (!Truthy(Field(form, "date")) || parsesDate(Field(form, "date").value))
              && (Field(form, "is_spam") == Some("on") || StoredComment(Field(form, "comment")) != ""
                  || Truthy(Field(form, "date")))
    ensures o.stored.Some? ==>
              o.stored.value == SpamReport(CleanPhoneNumber(Field(form, "number")), ReportDate(form),
                                           Field(form, "is_spam") == Some("on"),
                                           StoredComment(Field(form, "comment")))
  {
    var number := CleanPhoneNumber(Field(form, "number"));
    if number == "" then
      Outcome([Flash(MissingNumberMessage, Error)], None, Redirect(Index))
    else if !IsValidPhoneFormat(number) then
      Outcome([Flash(ReportBadNumberMessage, Error)], None, Redirect(ViewNumber(number)))
    else
      var date := Field(form, "date");
      var isSpam := Field(form, "is_spam") == Some("on");
      var notice := TruncationNotice(form);
      var comment := StoredComment(Field(form, "comment"));
      if Truthy(date) && !parsesDate(date.value) then
        Outcome(notice + [Flash(BadDateMessage(date.value), Error)], None, Redirect(ViewNumber(number)))
      else
        var storedDate := if Truthy(date) then date else None;
        if !isSpam && comment == "" && storedDate == None then
          Outcome(notice + [Flash(EmptyReportMessage, Error)], None, Redirect(ViewNumber(number)))
        else
          Outcome(notice + [Flash(StoredMessage, Success)],
                  Some(SpamReport(number, storedDate, isSpam, comment)), Redirect(ViewNumber(number)))
  }

  /** Every stored comment is the stripped comment cut to at most
      `MaxCommentLength` characters. */
  lemma ReportCommentBound(form: Form, parsesDate: string -> bool)
    requires Report(form, parsesDate).stored.Some?
    ensures var c := Report(form, parsesDate).stored.value.comment;
            |c| <= MaxCommentLength && c <= Strip(Field(form, "comment").GetOr(""))
            && (|c| == MaxCommentLength <==> |Strip(Field(form, "comment").GetOr(""))| >= MaxCommentLength)
  {
  }

  /** The truncation notice is queued exactly when the number passed its checks
      and the stripped comment is longer than `MaxCommentLength`. */
  lemma ReportTruncationNotice(form: Form, parsesDate: string -> bool)
    ensures var number := CleanPhoneNumber(Field(form, "number"));
            Flash(TruncatedMessage, Info) in Report(form, parsesDate).flashes <==>
              number != "" && IsValidPhoneFormat(number) && CommentTruncated(form)
  {
    var number := CleanPhoneNumber(Field(form, "number"));
    var o := Report(form, parsesDate);
    if number != "" && IsValidPhoneFormat(number) {
      var n := TruncationNotice(form);
      assert o.flashes == n + [o.flashes[|o.flashes| - 1]];
      assert o.flashes[|o.flashes| - 1].category != Info;
    } else {
      assert |o.flashes| == 1 && o.flashes[0].category == Error;
    }
  }

  /** A canonical number that is not empty and not valid is sent back to its
      own result page with an error, and nothing is stored. */
  lemma ReportRejectsInvalidNumber(form: Form, parsesDate: string -> bool)
    requires CleanPhoneNumber(Field(form, "number")) != ""
    requires !IsValidPhoneFormat(CleanPhoneNumber(Field(form, "number")))
    ensures Report(form, parsesDate) ==
              Outcome([Flash(ReportBadNumberMessage, Error)], None,
                      Redirect(ViewNumber(CleanPhoneNumber(Field(form, "number")))))
  {
  }

  /** A number that is missing, empty or made only of separators goes back to
      the index and nothing is stored. */
  lemma ReportRejectsMissingNumber(form: Form, parsesDate: string -> bool)
    requires CleanPhoneNumber(Field(form, "number")) == ""
    ensures Report(form, parsesDate) == Outcome([Flash(MissingNumberMessage, Error)], None, Redirect(Index))
  {
  }

  /** A date that is given but does not parse stores nothing; its error is the
      last notice queued. */
  lemma ReportRejectsBadDate(form: Form, parsesDate: string -> bool)
    requires IsValidPhoneFormat(CleanPhoneNumber(Field(form, "number")))
    requires Truthy(Field(form, "date")) && !parsesDate(Field(form, "date").value)
    ensures var o := Report(form, parsesDate);
            o.stored == None && |o.flashes| >= 1
            && o.flashes[|o.flashes| - 1] == Flash(BadDateMessage(Field(form, "date").value), Error)
            && o.response == Redirect(ViewNumber(CleanPhoneNumber(Field(form, "number"))))
  {
  }

  /** An empty or absent date is stored as no date. */
  lemma ReportEmptyDateIsNone(form: Form, parsesDate: string -> bool)
    requires Report(form, parsesDate).stored.Some?
    requires !Truthy(Field(form, "date"))
    ensures Report(form, parsesDate).stored.value.date == None
  {
  }

  /** Without the spam box, a comment or a date nothing is stored. */
  lemma ReportNeedsOneField(form: Form, parsesDate: string -> bool)
    ensures var o := Report(form, parsesDate);
            IsValidPhoneFormat(CleanPhoneNumber(Field(form, "number")))
            && Field(form, "is_spam") != Some("on")
            && StoredComment(Field(form, "comment")) == ""
            && !Truthy(Field(form, "date"))
            ==> o.stored == None && |o.flashes| >= 1
                && o.flashes[|o.flashes| - 1] == Flash(EmptyReportMessage, Error)
  {
  }

  /** A stored report is confirmed by the last notice and is followed by the
      result page of its number. */
  lemma ReportStoredConfirmed(form: Form, parsesDate: string -> bool)
    requires Report(form, parsesDate).stored.Some?
    ensures var o := Report(form, parsesDate);
            |o.flashes| >= 1 && o.flashes[|o.flashes| - 1] == Flash(StoredMessage, Success)
            && o.response == Redirect(ViewNumber(o.stored.value.number))
            && IsValidPhoneFormat(o.stored.value.number)
  {
  }
}
