/**
 * The contact form's `onSubmit`, as a decision on the submitted form data: every field is
 * trimmed, a filled honeypot is acknowledged without sending, a missing field is
 * reported, and a complete form is posted to the contact route. Both copies of the page
 * share this gate; they differ only in how a thrown error becomes the shown message.
 */
module ContactForm {
  import opened Wrappers
  import opened ContactRoute

  /**
   * The characters `String.prototype.trim` removes: the white space characters (tab,
   * vertical tab, form feed, space, no-break space, the byte order mark and the other
   * space separators) and the line terminators.
   */
  predicate IsJsSpace(c: char) {
    || c == '\U{9}' || c == '\U{B}' || c == '\U{C}' || c == ' ' || c == '\U{A0}' || c == '\U{FEFF}'
    || c == '\U{1680}' || ('\U{2000}' <= c <= '\U{200A}') || c == '\U{202F}' || c == '\U{205F}' || c == '\U{3000}'
    || c == '\n' || c == '\r' || c == '\U{2028}' || c == '\U{2029}'
  }

  /** The index of the first character at or after `i` that is not white space. */
  function SkipSpaces(s: string, i: int): (j: int)
    requires 0 <= i <= |s|
    ensures i <= j <= |s|
    ensures forall k :: i <= k < j ==> IsJsSpace(s[k])
    ensures j < |s| ==> !IsJsSpace(s[j])
    decreases |s| - i
  {
    if i < |s| && IsJsSpace(s[i]) then SkipSpaces(s, i + 1) else i
  }

  /** The end of `s[lo..j]` once its trailing white space is dropped. */
  function BackSpaces(s: string, lo: int, j: int): (k: int)
    requires 0 <= lo <= j <= |s|
    ensures lo <= k <= j
    ensures forall m :: k <= m < j ==> IsJsSpace(s[m])
    ensures k > lo ==> !IsJsSpace(s[k - 1])
    decreases j
  {
    if j > lo && IsJsSpace(s[j - 1]) then BackSpaces(s, lo, j - 1) else j
  }

  /**
   * `String.prototype.trim`: the slice of `s` between its leading and its trailing white
   * space.
   */
  function Trim(s: string): string {
    var lo := SkipSpaces(s, 0);
    s[lo..BackSpaces(s, lo, |s|)]
  }

  /**
   * What `Trim` keeps: a slice of `s` with only white space before and after it, which is
   * empty exactly when `s` is all white space and otherwise starts and ends with a
   * character that is not white space.
   */
  lemma TrimShape(s: string)
    ensures exists lo, hi :: 0 <= lo <= hi <= |s| && Trim(s) == s[lo..hi]
              && (forall k :: 0 <= k < lo ==> IsJsSpace(s[k]))
              && (forall k :: hi <= k < |s| ==> IsJsSpace(s[k]))
    ensures var r := Trim(s);
            && (r != [] ==> !IsJsSpace(r[0]) && !IsJsSpace(r[|r| - 1]))
            && (r == [] <==> forall k :: 0 <= k < |s| ==> IsJsSpace(s[k]))
  {
    var lo := SkipSpaces(s, 0);
    var hi := BackSpaces(s, lo, |s|);
    var r := s[lo..hi];
    assert Trim(s) == r;
    if r != [] {
      assert r[0] == s[lo] && r[|r| - 1] == s[hi - 1];
    } else {
      assert lo == |s|;
    }
  }

  /** Trimming twice is trimming once. */
  lemma TrimIdempotent(s: string)
    ensures Trim(Trim(s)) == Trim(s)
  {
    var lo := SkipSpaces(s, 0);
    var hi := BackSpaces(s, lo, |s|);
    var r := s[lo..hi];
    assert Trim(s) == r;
    if r != [] {
      assert r[0] == s[lo] && r[|r| - 1] == s[hi - 1];
      assert SkipSpaces(r, 0) == 0;
      assert BackSpaces(r, 0, |r|) == |r|;
      assert r[0..|r|] == r;
    } else {
      assert Trim(r) == [];
    }
  }

  /** The form fields as `FormData.get` returns them: `None` for an absent field. */
  datatype Form = Form(name: Option<string>, email: Option<string>, message: Option<string>, company: Option<string>)

  /** `String(fd.get(key) || '').trim()`. */
  function Field(v: Option<string>): (r: string)
    ensures v == None ==> r == ""
    ensures v.Some? ==> r == Trim(v.value)
  {
    Trim(v.GetOr(""))
  }

  /** The `sending` state: `false`, `'sending'`, `'ok'` or `'error'`. */
  datatype Status = Idle | Sending | Sent | Errored

  /** The JSON object the form posts. */
  datatype Payload = Payload(name: string, email: string, message: string, company: string)

  /**
   * The effects of one step of `onSubmit`: the status it sets, the error message it sets
   * (`None` when it sets none), whether it resets the form, and the request it sends.
   */
  datatype Submission = Submission(status: Status, errorMsg: Option<string>, reset: bool, request: Option<Payload>)

  const FillOutAll: string := "Please fill out all fields."

  /** The synchronous part of `onSubmit`, up to the `fetch`. */
  function OnSubmit(f: Form): (r: Submission)
    ensures Field(f.company) != "" ==> r == Submission(Sent, None, true, None)
    ensures Field(f.company) == "" && (Field(f.name) == "" || Field(f.email) == "" || Field(f.message) == "") ==>
              r == Submission(Errored, Some(FillOutAll), false, None)
    ensures r.request.Some? <==>
              Field(f.company) == "" && Field(f.name) != "" && Field(f.email) != "" && Field(f.message) != ""
    ensures r.request.Some? ==>
              && r == Submission(Sending, None, false, r.request)
              && r.request.value == Payload(Field(f.name), Field(f.email), Field(f.message), "")
  {
    var name, email, message, company := Field(f.name), Field(f.email), Field(f.message), Field(f.company);
    if company != "" then Submission(Sent, None, true, None)
    else if name == "" || email == "" || message == "" then Submission(Errored, Some(FillOutAll), false, None)
    else Submission(Sending, None, false, Some(Payload(name, email, message, company)))
  }

  /** What a rejected `fetch` or the explicit `throw` hands to the `catch`. */
  datatype Thrown = ErrorObject(message: string) | NotAnError

  /** How the `fetch` settles. */
  datatype FetchResult = Response(ok: bool) | Rejected(thrown: Thrown)

  /**
   * How the `catch` turns what was thrown into the shown message: one copy takes the
   * message of any `Error` (`err instanceof Error ? err.message : …`), the other any
   * non-empty message (`err?.message || …`).
   */
  datatype MessageRule = InstanceOfError | NonEmptyMessage

  const SomethingWentWrong: string := "Something went wrong."

  function ErrorMessage(rule: MessageRule, t: Thrown): (m: string)
    ensures t == NotAnError ==> m == SomethingWentWrong
    ensures t.ErrorObject? && t.message != "" ==> m == t.message
    ensures rule == InstanceOfError && t.ErrorObject? ==> m == t.message
    ensures rule == NonEmptyMessage ==> m != ""
    ensures rule == NonEmptyMessage && t == ErrorObject("") ==> m == SomethingWentWrong
  {
    match t
    case NotAnError => SomethingWentWrong
    case ErrorObject(msg) =>
      if rule == InstanceOfError || msg != "" then msg else SomethingWentWrong
  }

  /** The part of `onSubmit` after the `fetch` settles. */
  function Settle(rule: MessageRule, res: FetchResult): (r: Submission)
    ensures r.request == None
    ensures r.status == Sent <==> res == Response(true)
    ensures r.status == Sent ==> r.reset && r.errorMsg == None
    ensures r.status != Sent ==> r.status == Errored && !r.reset && r.errorMsg.Some?
    ensures res == Response(false) ==> r.errorMsg == Some("Failed to send")
    ensures res.Rejected? ==> r.errorMsg == Some(ErrorMessage(rule, res.thrown))
  {
    match res
    case Response(ok) =>
      if ok then Submission(Sent, None, true, None)
      else Submission(Errored, Some(ErrorMessage(rule, ErrorObject("Failed to send"))), false, None)
    case Rejected(t) => Submission(Errored, Some(ErrorMessage(rule, t)), false, None)
  }

  /** `JSON.stringify` on the client, then `req.json()` on the server. */
  function AsBody(p: Payload): (b: Body)
    ensures b.name == Some(p.name) && b.email == Some(p.email)
    ensures b.message == Some(p.message) && b.company == Some(p.company)
  {
    Body(Some(p.name), Some(p.email), Some(p.message), Some(p.company))
  }

  /**
   * Whatever the form sends passes both gates of the route: its honeypot is empty and its
   * fields are not, so the route composes the mail from exactly the trimmed fields.
   */
  lemma SentFormReachesMail(f: Form, env: Env, delivered: bool)
    requires OnSubmit(f).request.Some?
    ensures var p := OnSubmit(f).request.value;
            var o := Post(Some(AsBody(p)), env, delivered);
            && o.mail == Some(Compose(env, Field(f.name), Field(f.email), Field(f.message)))
            && (o.reply == Ok <==> delivered)
  {
    var p := OnSubmit(f).request.value;
    assert p == Payload(Field(f.name), Field(f.email), Field(f.message), "");
    var b := AsBody(p);
    assert !Truthy(b.company);
    assert Complete(b);
  }

  /** A trimmed field is empty exactly when the raw field is absent or all white space. */
  lemma FieldEmptyIff(v: Option<string>)
    ensures Field(v) == "" <==> v == None || forall k :: 0 <= k < |v.value| ==> IsJsSpace(v.value[k])
  {
    if v.Some? {
      TrimShape(v.value);
    }
  }
}
