/**
 * The contact API route's `POST` handler, as a decision on the parsed request body: the
 * honeypot, then the required fields, then one e-mail whose addresses fall back on
 * defaults and whose HTML body escapes everything the visitor wrote.
 */
module ContactRoute {
  import opened Wrappers
  import opened HtmlEscape

  /** The request body type: every field may be absent. */
  datatype Body = Body(name: Option<string>, email: Option<string>, message: Option<string>, company: Option<string>)

  /** JavaScript truthiness of an optional string: present and not empty. */
  predicate Truthy(v: Option<string>) {
    v.Some? && v.value != ""
  }

  /** `v || fallback` on an optional string. */
  function OrElse(v: Option<string>, fallback: string): (r: string)
    ensures Truthy(v) ==> r == v.value
    ensures !Truthy(v) ==> r == fallback
  {
    if Truthy(v) then v.value else fallback
  }

  /** The environment variables the handler reads for addressing. */
  datatype Env = Env(mailFrom: Option<string>, smtpUser: Option<string>, mailTo: Option<string>)

  const DefaultFrom: string := "no-reply@example.com"
  const DefaultTo: string := "martinenke.info@gmail.com"

  /** `MAIL_FROM || SMTP_USER || 'no-reply@example.com'`. */
  function FromAddress(env: Env): (from: string)
    ensures Truthy(env.mailFrom) ==> from == env.mailFrom.value
    ensures !Truthy(env.mailFrom) && Truthy(env.smtpUser) ==> from == env.smtpUser.value
    ensures !Truthy(env.mailFrom) && !Truthy(env.smtpUser) ==> from == DefaultFrom
    ensures from != ""
  {
    OrElse(env.mailFrom, OrElse(env.smtpUser, DefaultFrom))
  }

  /** `MAIL_TO || 'martinenke.info@gmail.com'`. */
  function ToAddress(env: Env): (to: string)
    ensures Truthy(env.mailTo) ==> to == env.mailTo.value
    ensures !Truthy(env.mailTo) ==> to == DefaultTo
    ensures to != ""
  {
    OrElse(env.mailTo, DefaultTo)
  }

  /** The message handed to the mail transport. */
  datatype Mail = Mail(from: string, to: string, subject: string, replyTo: string, text: string, html: string)

  /** The mail subject: a fixed prefix, an em dash and the sender's name. */
  function Subject(name: string): string {
    "Portfolio contact \U{2014} " + name
  }

  /** The plain-text body: the sender line, a blank line, then the message as written. */
  function PlainText(name: string, email: string, message: string): string {
    "From: " + name + " <" + email + ">\n\n" + message
  }

  /** The HTML body: the sender line with name and address escaped, then the message markup. */
  function HtmlBody(name: string, email: string, message: string): string {
    "<p><strong>From:</strong> " + EscapeHtml(name) + " &lt;" + EscapeHtml(email) + "&gt;</p><p>"
    + MessageHtml(message) + "</p>"
  }

  /** The mail `sendMail` receives for a valid submission. */
  function Compose(env: Env, name: string, email: string, message: string): (m: Mail)
    ensures m.from == FromAddress(env) && m.to == ToAddress(env) && m.replyTo == email
    ensures m.subject == Subject(name)
    ensures m.text == PlainText(name, email, message) && m.html == HtmlBody(name, email, message)
  {
    Mail(FromAddress(env), ToAddress(env), Subject(name), email, PlainText(name, email, message),
         HtmlBody(name, email, message))
  }

  /** The JSON the handler answers with. */
  datatype ReplyBody = Accepted | Failure(error: string)

  /** A `NextResponse.json(…)` reply: its status and body. */
  datatype Reply = Reply(status: int, body: ReplyBody)

  /** What one request does: the reply, and the mail handed to the transport, if any. */
  datatype Outcome = Outcome(reply: Reply, mail: Option<Mail>)

  const Ok: Reply := Reply(200, Accepted)
  const MissingFields: Reply := Reply(400, Failure("Missing fields"))
  const SendFailed: Reply := Reply(500, Failure("Email failed to send"))

  /** All three required fields are truthy. */
  predicate Complete(b: Body) {
    Truthy(b.name) && Truthy(b.email) && Truthy(b.message)
  }

  /** What `req.json()` makes of the request body. */
  datatype Json = Unparsable | JsonNull | JsonObject(fields: Body) | OtherValue  // a number, string, boolean or array

  /**
   * The body as the handler reads it. Rejected JSON throws, and so does reading
   * `body.company` of `null`; both are `None`. Any other value that is not an object has
   * no `company`, `name`, `email` or `message` property, so it reads as four absent fields.
   */
  function ReadBody(j: Json): (r: Option<Body>)
    ensures r == None <==> j == Unparsable || j == JsonNull
    ensures j.JsonObject? ==> r == Some(j.fields)
    ensures j == OtherValue ==> r == Some(Body(None, None, None, None))
  {
    match j
    case Unparsable => None
    case JsonNull => None
    case JsonObject(b) => Some(b)
    case OtherValue => Some(Body(None, None, None, None))
  }

  /**
   * `POST`. `request` is the body as `ReadBody` reads it: `None` when `req.json()` rejects
   * or the body is JSON `null`, which throws inside the `try` and so ends in the 500 reply.
   * `delivered` is whether the transport accepted the mail; a rejected send also ends in
   * the 500 reply.
   */
  function Post(request: Option<Body>, env: Env, delivered: bool): (o: Outcome)
    ensures o.reply == Ok || o.reply == MissingFields || o.reply == SendFailed
    ensures request.Some? && Truthy(request.value.company) ==> o == Outcome(Ok, None)
    ensures request.Some? && !Truthy(request.value.company) && !Complete(request.value) ==>
              o == Outcome(MissingFields, None)
    ensures o.mail.Some? <==> request.Some? && !Truthy(request.value.company) && Complete(request.value)
    ensures o.mail.Some? ==>
              var b := request.value;
              o.mail.value == Compose(env, b.name.value, b.email.value, b.message.value)
              && (o.reply == Ok <==> delivered)
    ensures request == None ==> o == Outcome(SendFailed, None)
  {
    if request == None then Outcome(SendFailed, None)
    else
      var b := request.value;
      if Truthy(b.company) then Outcome(Ok, None)
      else if !Complete(b) then Outcome(MissingFields, None)
      else
        var mail := Compose(env, b.name.value, b.email.value, b.message.value);
        Outcome(if delivered then Ok else SendFailed, Some(mail))
  }

  /** The honeypot is decided before anything else: with it filled, no other input matters. */
  lemma HoneypotFirst(b: Body, b': Body, env: Env, env': Env, delivered: bool, delivered': bool)
    requires Truthy(b.company) && b'.company == b.company
    ensures Post(Some(b), env, delivered) == Post(Some(b'), env', delivered') == Outcome(Ok, None)
  {
  }

  /**
   * Only a body that cannot be read gets the 500 reply before any mail exists; a JSON value
   * that is not an object gets the 400 reply, because its fields all read as absent.
   */
  lemma UnreadableBodies(j: Json, env: Env, delivered: bool)
    ensures var o := Post(ReadBody(j), env, delivered);
            && (j == Unparsable || j == JsonNull ==> o == Outcome(SendFailed, None))
            && (j == OtherValue ==> o == Outcome(MissingFields, None))
            && (o.mail == None && o.reply == SendFailed <==> j == Unparsable || j == JsonNull)
  {
  }

  /** A 400 reply is given exactly for an empty honeypot with a required field missing, and sends nothing. */
  lemma MissingFieldsSendNothing(request: Option<Body>, env: Env, delivered: bool)
    ensures var o := Post(request, env, delivered);
            (o.reply.status == 400 <==> request.Some? && !Truthy(request.value.company) && !Complete(request.value))
            && (o.reply.status == 400 ==> o.mail == None)
  {
  }

  // ---------------------------------------------------------------------------
  // The HTML body opens only its own tags

  /** The tags the HTML body's template writes. */
  predicate StartsTag(v: string) {
    "<p>" <= v || "</p>" <= v || "<strong>" <= v || "</strong>" <= v || "<br/>" <= v
  }

  /** Every `<` of the text begins one of the template's tags. */
  predicate OnlyTemplateTags(u: string) {
    forall i :: 0 <= i < |u| && u[i] == '<' ==> StartsTag(u[i..])
  }

  lemma PrefixExtends(p: string, v: string, w: string)
    requires p <= v
    ensures p <= v + w
  {
    assert (v + w)[..|p|] == v[..|p|];
  }

  lemma StartsTagExtends(v: string, w: string)
    requires StartsTag(v)
    ensures StartsTag(v + w)
  {
    if "<p>" <= v {
      PrefixExtends("<p>", v, w);
    } else if "</p>" <= v {
      PrefixExtends("</p>", v, w);
    } else if "<strong>" <= v {
      PrefixExtends("<strong>", v, w);
    } else if "</strong>" <= v {
      PrefixExtends("</strong>", v, w);
    } else {
      PrefixExtends("<br/>", v, w);
    }
  }

  lemma {:induction false} OnlyTemplateTagsAppend(a: string, b: string)
    requires OnlyTemplateTags(a) && OnlyTemplateTags(b)
    ensures OnlyTemplateTags(a + b)
  {
    var u := a + b;
    forall i | 0 <= i < |u| && u[i] == '<'
      ensures StartsTag(u[i..])
    {
      if i < |a| {
        assert a[i] == '<';
        StartsTagExtends(a[i..], b);
        assert u[i..] == a[i..] + b;
      } else {
        assert b[i - |a|] == '<';
        assert u[i..] == b[i - |a|..];
      }
    }
  }

  /** Text without `<` opens no tag. */
  lemma NoAngle(u: string)
    requires '<' !in u
    ensures OnlyTemplateTags(u)
  {
    assert forall i :: 0 <= i < |u| ==> u[i] in u;
  }

  /** The opening piece of the template: `<p>`, `<strong>` and `</strong>`. */
  lemma SenderOpening()
    ensures OnlyTemplateTags("<p><strong>From:</strong> ")
  {
    var u := "<p><strong>From:</strong> ";
    forall i | 0 <= i < |u| && u[i] == '<'
      ensures StartsTag(u[i..])
    {
      assert i == 0 || i == 3 || i == 16;
      if i == 0 {
        assert "<p>" <= u[i..];
      } else if i == 3 {
        assert "<strong>" <= u[i..];
      } else {
        assert "</strong>" <= u[i..];
      }
    }
  }

  /** The piece between the address and the message: `</p>` then `<p>`. */
  lemma SenderClosing()
    ensures OnlyTemplateTags("&gt;</p><p>")
  {
    var u := "&gt;</p><p>";
    forall i | 0 <= i < |u| && u[i] == '<'
      ensures StartsTag(u[i..])
    {
      assert i == 4 || i == 8;
      if i == 4 {
        assert "</p>" <= u[i..];
      } else {
        assert "<p>" <= u[i..];
      }
    }
  }

  /** The closing piece of the template. */
  lemma MessageClosing()
    ensures OnlyTemplateTags("</p>")
  {
    var u := "</p>";
    forall i | 0 <= i < |u| && u[i] == '<'
      ensures StartsTag(u[i..])
    {
      assert i == 0;
      assert "</p>" <= u[i..];
    }
  }

  /**
   * Whatever the visitor writes, every `<` of the HTML body begins a tag of the template
   * (`<p>`, `</p>`, `<strong>`, `</strong>`) or a `<br/>` written for a newline.
   */
  lemma HtmlBodyOpensOnlyTemplateTags(name: string, email: string, message: string)
    ensures OnlyTemplateTags(HtmlBody(name, email, message))
  {
    SenderOpening();
    SenderClosing();
    MessageClosing();
    NoAngle(EscapeHtml(name));
    NoAngle(EscapeHtml(email));
    NoAngle(" &lt;");
    MessageTagsAreBreaks(message);
    var m := MessageHtml(message);
    forall i | 0 <= i < |m| && m[i] == '<'
      ensures StartsTag(m[i..])
    {
      assert "<br/>" <= m[i..];
    }
    var a := "<p><strong>From:</strong> " + EscapeHtml(name);
    OnlyTemplateTagsAppend("<p><strong>From:</strong> ", EscapeHtml(name));
    OnlyTemplateTagsAppend(a, " &lt;");
    OnlyTemplateTagsAppend(a + " &lt;", EscapeHtml(email));
    OnlyTemplateTagsAppend(a + " &lt;" + EscapeHtml(email), "&gt;</p><p>");
    OnlyTemplateTagsAppend(a + " &lt;" + EscapeHtml(email) + "&gt;</p><p>", m);
    OnlyTemplateTagsAppend(a + " &lt;" + EscapeHtml(email) + "&gt;</p><p>" + m, "</p>");
  }
}
