/** What a submission carries: the payload both forms build, the
    e-mail service configuration, the service's template parameters, and
    the body and link of the `mailto:` fallback (RFC 6068, with the `subject`
    and `body` header fields). */
module EmailPayload {
  import opened Wrappers
  import opened Text
  import opened PercentEncoding
  import FormFields

  /** The object handed to `sendContactEmail`; `requestType` is the
      source's `type` property. */
  datatype EmailData = EmailData(
    name: string,
    email: string,
    phone: string,
    company: string,
    message: string,
    subject: string,
    requestType: string)

  /** The page form's payload: the collected fields, with the service
      selection travelling as the company, under a fixed subject and type. */
  function PagePayload(fs: FormFields.Fields): EmailData {
    EmailData(fs.name, fs.email, fs.phone, fs.service, fs.message,
              "Contact Form Submission", "Contact Form")
  }

  /** `new FormData(form)` copied entry by entry into a plain object: a
      later entry with the same key overwrites an earlier one. */
  function EntriesObject(entries: seq<(string, string)>): map<string, string> {
    if entries == [] then map[]
    else EntriesObject(entries[..|entries| - 1])[entries[|entries| - 1].0 := entries[|entries| - 1].1]
  }

  /** Entry `i` is the last entry with key `k`. */
  ghost predicate IsLastEntry(entries: seq<(string, string)>, k: string, i: int) {
    && 0 <= i < |entries|
    && entries[i].0 == k
    && forall j :: i < j < |entries| ==> entries[j].0 != k
  }

  /** The object holds exactly the keys some entry has. */
  lemma {:induction false} EntriesObjectKeys(entries: seq<(string, string)>, k: string)
    ensures k in EntriesObject(entries) <==> exists i :: 0 <= i < |entries| && entries[i].0 == k
  {
    if entries != [] {
      var init := entries[..|entries| - 1];
      EntriesObjectKeys(init, k);
      if exists i :: 0 <= i < |init| && init[i].0 == k {
        var i :| 0 <= i < |init| && init[i].0 == k;
        assert entries[i].0 == k;
      }
      if exists i :: 0 <= i < |entries| && entries[i].0 == k {
        var i :| 0 <= i < |entries| && entries[i].0 == k;
        if i < |entries| - 1 {
          assert init[i].0 == k;
        }
      }
    }
  }

  /** For each key, the object holds the value of the last entry with it. */
  lemma {:induction false} EntriesObjectLastWins(entries: seq<(string, string)>, k: string, i: int)
    requires IsLastEntry(entries, k, i)
    ensures k in EntriesObject(entries) && EntriesObject(entries)[k] == entries[i].1
  {
    var init := entries[..|entries| - 1];
    if i < |entries| - 1 {
      assert IsLastEntry(init, k, i);
      EntriesObjectLastWins(init, k, i);
    }
  }

  /** `formObject.key || ''`. */
  function EntryOr(obj: map<string, string>, key: string): string {
    if key in obj then obj[key] else ""
  }

  const DefaultSubject := "Contact Request"

  /** The modal form's payload: fields taken from the form data as they
      are (not trimmed), and the modal's title, or "Contact Request" when
      there is no title or it is empty, as both subject and type. */
  function ModalPayload(entries: seq<(string, string)>, modalTitle: Option<string>): (d: EmailData)
    ensures d.subject == d.requestType != ""
    ensures modalTitle.Some? && modalTitle.value != "" ==> d.subject == modalTitle.value
    ensures modalTitle.None? || modalTitle.value == "" ==> d.subject == DefaultSubject
  {
    var obj := EntriesObject(entries);
    var title := OrDefault(modalTitle.GetOr(""), DefaultSubject);
    EmailData(EntryOr(obj, "name"), EntryOr(obj, "email"), EntryOr(obj, "phone"),
              EntryOr(obj, "company"), EntryOr(obj, "message"), title, title)
  }

  /** The form-data keys the modal payload reads. */
  predicate ModalKey(key: string) {
    key in {"name", "email", "phone", "company", "message"}
  }

  /** The payload field filled from form-data key `key`. */
  function PayloadField(d: EmailData, key: string): string
    requires ModalKey(key)
  {
    if key == "name" then d.name
    else if key == "email" then d.email
    else if key == "phone" then d.phone
    else if key == "company" then d.company
    else d.message
  }

  /** Each field of the modal payload is the value of the last form-data
      entry with its key. */
  lemma ModalPayloadTakesLastEntry(entries: seq<(string, string)>, modalTitle: Option<string>, key: string, i: int)
    requires ModalKey(key)
    requires IsLastEntry(entries, key, i)
    ensures PayloadField(ModalPayload(entries, modalTitle), key) == entries[i].1
  {
    EntriesObjectLastWins(entries, key, i);
  }

  /** A field whose key no entry carries is sent as "". */
  lemma ModalPayloadMissingEntry(entries: seq<(string, string)>, modalTitle: Option<string>, key: string)
    requires ModalKey(key)
    requires forall i :: 0 <= i < |entries| ==> entries[i].0 != key
    ensures PayloadField(ModalPayload(entries, modalTitle), key) == ""
  {
    EntriesObjectKeys(entries, key);
  }

  /** The e-mail service identifiers and the destination address. */
  datatype Config = Config(serviceId: string, templateId: string, publicKey: string, contactEmail: string)

  /** The values the page ships with. */
  const ShippedConfig := Config("service_0wycke7", "template_5xyb616", "0IGXwgdA1wKH6MrfX", "info@aonz.in")

  /** Some identifier still holds its placeholder sentinel. */
  predicate Unconfigured(cfg: Config) {
    || cfg.serviceId == "YOUR_SERVICE_ID"
    || cfg.templateId == "YOUR_TEMPLATE_ID"
    || cfg.publicKey == "YOUR_PUBLIC_KEY"
  }

  /** As shipped, the sentinel branch never fires and the contact address
      needs no `?` escaping in a mail link. */
  lemma ShippedConfigIsConfigured()
    ensures !Unconfigured(ShippedConfig)
    ensures '?' !in ShippedConfig.contactEmail
  {
  }

  /** The parameters handed to the e-mail service. */
  datatype TemplateParams = TemplateParams(
    toEmail: string,
    fromName: string,
    fromEmail: string,
    phone: string,
    company: string,
    message: string,
    subject: string,
    requestType: string,
    replyTo: string)

  const NotProvided := "Not provided"
  const NoMessage := "No message provided"
  const DefaultRequestType := "General Inquiry"

  /** The template parameters: empty optional fields take their defaults. */
  function MakeTemplateParams(d: EmailData, cfg: Config): TemplateParams {
    TemplateParams(
      cfg.contactEmail, d.name, d.email,
      OrDefault(d.phone, NotProvided), OrDefault(d.company, NotProvided),
      OrDefault(d.message, NoMessage), OrDefault(d.subject, DefaultSubject),
      OrDefault(d.requestType, DefaultRequestType), d.email)
  }

  /** What the template promises: the reply goes to the sender, the mail
      goes to the configured address, no optional field is sent empty, and
      a non-empty field is sent unchanged. */
  lemma TemplateParamsDefaults(d: EmailData, cfg: Config)
    ensures var p := MakeTemplateParams(d, cfg);
      && p.replyTo == p.fromEmail == d.email
      && p.toEmail == cfg.contactEmail
      && p.fromName == d.name
      && p.phone != "" && p.company != "" && p.message != "" && p.subject != "" && p.requestType != ""
      && (d.phone != "" ==> p.phone == d.phone) && (d.phone == "" ==> p.phone == NotProvided)
      && (d.company != "" ==> p.company == d.company) && (d.company == "" ==> p.company == NotProvided)
      && (d.message != "" ==> p.message == d.message) && (d.message == "" ==> p.message == NoMessage)
      && (d.subject != "" ==> p.subject == d.subject) && (d.subject == "" ==> p.subject == DefaultSubject)
      && (d.requestType != "" ==> p.requestType == d.requestType)
      && (d.requestType == "" ==> p.requestType == DefaultRequestType)
  {
  }

  /** The plain-text body of the fallback mail: five labelled lines, an
      empty line, "Message:" and the message, with the template's defaults. */
  function MailtoBody(d: EmailData): string {
    "Name: " + d.name + "\n" + (
    "Email: " + d.email + "\n" + (
    "Phone: " + OrDefault(d.phone, NotProvided) + "\n" + (
    "Company: " + OrDefault(d.company, NotProvided) + "\n" + (
    "Request Type: " + OrDefault(d.requestType, DefaultRequestType) + "\n" + (
    "\n" + (
    "Message:\n" + OrDefault(d.message, NoMessage)))))))
  }

  /** The position of the first `c` in `s`. */
  function IndexOf(s: string, c: char): (r: Option<nat>)
    ensures r.Some? ==> r.value < |s| && s[r.value] == c && c !in s[..r.value]
    ensures r.None? ==> c !in s
  {
    if s == [] then None
    else if s[0] == c then Some(0)
    else
      match IndexOf(s[1..], c)
      case Some(k) =>
        assert s[..k + 1] == [s[0]] + s[1..][..k];
        Some(k + 1)
      case None => None
  }

  /** The first `c` of `a + [c] + b` is the one after `a` when `a` has none. */
  lemma IndexOfAfter(a: string, c: char, b: string)
    requires c !in a
    ensures IndexOf(a + [c] + b, c) == Some(|a|)
  {
    var s := a + [c] + b;
    assert s[|a|] == c;
    assert s[..|a|] == a;
  }

  /** Splits at the first `c`, dropping it. */
  function SplitAt(s: string, c: char): Option<(string, string)> {
    var k :- IndexOf(s, c);
    Some((s[..k], s[k + 1..]))
  }

  lemma SplitAtAfter(a: string, c: char, b: string)
    requires c !in a
    ensures SplitAt(a + [c] + b, c) == Some((a, b))
  {
    IndexOfAfter(a, c, b);
    var s := a + [c] + b;
    assert s[..|a|] == a && s[|a| + 1..] == b;
  }

  /** The text after `prefix`, when `line` starts with it. */
  function Unlabel(line: string, prefix: string): Option<string> {
    if StartsWith(line, prefix) then Some(line[|prefix|..]) else None
  }

  lemma UnlabelAfter(prefix: string, v: string)
    ensures Unlabel(prefix + v, prefix) == Some(v)
  {
    assert (prefix + v)[..|prefix|] == prefix;
    assert (prefix + v)[|prefix|..] == v;
  }

  /** Reads one line that starts with `prefix`: the text after the prefix,
      and what follows the line. */
  function ReadLine(s: string, prefix: string): Option<(string, string)> {
    var l :- SplitAt(s, '\n');
    var v :- Unlabel(l.0, prefix);
    Some((v, l.1))
  }

  lemma ReadLineAfter(prefix: string, v: string, rest: string)
    requires '\n' !in prefix + v
    ensures ReadLine(prefix + v + "\n" + rest, prefix) == Some((v, rest))
  {
    SplitAtAfter(prefix + v, '\n', rest);
    UnlabelAfter(prefix, v);
  }

  /** The values a fallback body shows. */
  datatype BodyFields = BodyFields(
    name: string, email: string, phone: string, company: string, requestType: string, message: string)

  /** Reads a fallback body back into its values: five labelled lines, an
      empty line, a "Message:" line, then the message itself, which may
      span lines. */
  function ParseBody(s: string): Option<BodyFields> {
    var name :- ReadLine(s, "Name: ");
    var email :- ReadLine(name.1, "Email: ");
    var phone :- ReadLine(email.1, "Phone: ");
    var company :- ReadLine(phone.1, "Company: ");
    var requestType :- ReadLine(company.1, "Request Type: ");
    var message :- ParseMessage(requestType.1);
    Some(BodyFields(name.0, email.0, phone.0, company.0, requestType.0, message))
  }

  /** Reads the tail of a body: an empty line, a "Message:" line, then the
      message itself. */
  function ParseMessage(s: string): Option<string> {
    var blank :- ReadLine(s, "");
    var heading :- ReadLine(blank.1, "Message:");
    if blank.0 == "" && heading.0 == "" then Some(heading.1) else None
  }

  /** The label of header line `k` of a body. */
  function LineLabel(k: nat): string {
    if k == 0 then "Name: "
    else if k == 1 then "Email: "
    else if k == 2 then "Phone: "
    else if k == 3 then "Company: "
    else "Request Type: "
  }

  /** The value on header line `k` of a body. */
  function LineValue(f: BodyFields, k: nat): string {
    if k == 0 then f.name
    else if k == 1 then f.email
    else if k == 2 then f.phone
    else if k == 3 then f.company
    else f.requestType
  }

  /** A body in the shape `MailtoBody` writes: five labelled header lines,
      an empty line, a "Message:" line and the message. */
  function BodyOf(f: BodyFields): string {
    BodyFrom(f, 0)
  }

  /** The lines of `BodyOf(f)` from header line `k` on. */
  function BodyFrom(f: BodyFields, k: nat): string
    decreases 5 - k
  {
    if k < 5 then LineLabel(k) + LineValue(f, k) + "\n" + BodyFrom(f, k + 1)
    else "\n" + ("Message:\n" + f.message)
  }

  lemma ReadBodyLine(f: BodyFields, k: nat)
    requires k < 5 && '\n' !in LineValue(f, k)
    ensures ReadLine(BodyFrom(f, k), LineLabel(k)) == Some((LineValue(f, k), BodyFrom(f, k + 1)))
  {
    ReadLineAfter(LineLabel(k), LineValue(f, k), BodyFrom(f, k + 1));
  }

  /** Reading back a body of that shape gives back its values, so long as
      the one-line values hold no line break. */
  lemma ParseBodyOf(f: BodyFields)
    requires '\n' !in f.name && '\n' !in f.email && '\n' !in f.phone
    requires '\n' !in f.company && '\n' !in f.requestType
    ensures ParseBody(BodyOf(f)) == Some(f)
  {
    ReadBodyLine(f, 0);
    ReadBodyLine(f, 1);
    ReadBodyLine(f, 2);
    ReadBodyLine(f, 3);
    ReadBodyLine(f, 4);
    ParseMessageAfter(f.message);
    ParseBodySteps(f, BodyFrom(f, 1), BodyFrom(f, 2), BodyFrom(f, 3), BodyFrom(f, 4), BodyFrom(f, 5), BodyOf(f));
  }

  lemma ParseMessageAfter(m: string)
    ensures ParseMessage("\n" + ("Message:\n" + m)) == Some(m)
  {
    var r6 := "Message:\n" + m;
    assert "" + "" + "\n" + r6 == "\n" + r6;
    ReadLineAfter("", "", r6);
    assert "Message:" + "" + "\n" + m == r6;
    ReadLineAfter("Message:", "", m);
  }

  /** `ParseBody` succeeds when each of its reads does. */
  lemma ParseBodySteps(f: BodyFields, r1: string, r2: string, r3: string, r4: string, r5: string, body: string)
    requires ReadLine(body, "Name: ") == Some((f.name, r1))
    requires ReadLine(r1, "Email: ") == Some((f.email, r2))
    requires ReadLine(r2, "Phone: ") == Some((f.phone, r3))
    requires ReadLine(r3, "Company: ") == Some((f.company, r4))
    requires ReadLine(r4, "Request Type: ") == Some((f.requestType, r5))
    requires ParseMessage(r5) == Some(f.message)
    ensures ParseBody(body) == Some(f)
  {
  }

  /** The payload's labelled one-line values hold no line break. An
      `<input>` value never does, but a `<textarea>` whose placeholder or
      name matches "name", "email", "phone" or "service" is collected into
      that field with its inner line breaks, so this is a condition on the
      payload, not something every form guarantees. */
  predicate SingleLine(d: EmailData) {
    '\n' !in d.name && '\n' !in d.email && '\n' !in d.phone
    && '\n' !in d.company && '\n' !in d.requestType
  }

  /** The fallback body carries exactly what the e-mail service would have
      been sent: reading it back gives the template's sender, phone,
      company, request type and message, defaults included. */
  lemma BodyCarriesTemplateValues(d: EmailData, cfg: Config)
    requires SingleLine(d)
    ensures var p := MakeTemplateParams(d, cfg);
      ParseBody(MailtoBody(d)) ==
        Some(BodyFields(p.fromName, p.fromEmail, p.phone, p.company, p.requestType, p.message))
  {
    var p := MakeTemplateParams(d, cfg);
    var f := BodyFields(p.fromName, p.fromEmail, p.phone, p.company, p.requestType, p.message);
    MailtoBodyShape(d, f);
    ParseBodyOf(f);
  }

  lemma MailtoBodyShape(d: EmailData, f: BodyFields)
    requires f == BodyFields(d.name, d.email, OrDefault(d.phone, NotProvided), OrDefault(d.company, NotProvided),
                             OrDefault(d.requestType, DefaultRequestType), OrDefault(d.message, NoMessage))
    ensures MailtoBody(d) == BodyOf(f)
  {
    assert BodyFrom(f, 5) == "\n" + ("Message:\n" + f.message);
  }

  /** The fallback link: the contact address, then the encoded subject
      (default "Contact Request") and the encoded body. */
  function MailtoLink(cfg: Config, d: EmailData): string {
    "mailto:" + cfg.contactEmail
    + "?subject=" + Encode(OrDefault(d.subject, DefaultSubject))
    + "&body=" + Encode(MailtoBody(d))
  }

  /** The recipient and the decoded header fields of a mail link. */
  datatype MailtoFields = MailtoFields(to: string, subject: string, body: string)

  /** Reads a link of the shape `MailtoLink` builds. */
  function ParseMailto(link: string): Option<MailtoFields> {
    var rest :- Unlabel(link, "mailto:");
    var address := SplitAt(rest, '?');
    var to :- address;
    var afterSubject :- Unlabel(to.1, "subject=");
    var fields :- SplitAt(afterSubject, '&');
    var encodedBody :- Unlabel(fields.1, "body=");
    var subject :- Decode(fields.0);
    var body :- Decode(encodedBody);
    Some(MailtoFields(to.0, subject, body))
  }

  /** Reading a link of the built shape, before decoding. */
  lemma ParseMailtoShape(to: string, es: string, eb: string)
    requires '?' !in to && '&' !in es
    ensures ParseMailto("mailto:" + (to + ['?'] + ("subject=" + (es + ['&'] + ("body=" + eb))))) ==
      (match (Decode(es), Decode(eb))
       case (Some(subject), Some(body)) => Some(MailtoFields(to, subject, body))
       case _ => None)
  {
    var bodyPart := "body=" + eb;
    var afterSubject := es + ['&'] + bodyPart;
    var query := "subject=" + afterSubject;
    var rest := to + ['?'] + query;
    UnlabelAfter("mailto:", rest);
    SplitAtAfter(to, '?', query);
    UnlabelAfter("subject=", afterSubject);
    SplitAtAfter(es, '&', bodyPart);
    UnlabelAfter("body=", eb);
  }

  /** The link opens a mail to the configured address whose subject is the
      template's subject and whose body is the fallback body: nothing is
      lost or altered by the encoding, so long as the address itself holds
      no `?`. */
  lemma MailtoLinkRoundTrip(cfg: Config, d: EmailData)
    requires '?' !in cfg.contactEmail
    ensures ParseMailto(MailtoLink(cfg, d)) ==
      Some(MailtoFields(cfg.contactEmail, MakeTemplateParams(d, cfg).subject, MailtoBody(d)))
  {
    EncodedLinkRoundTrip(cfg.contactEmail, OrDefault(d.subject, DefaultSubject), MailtoBody(d));
  }

  /** The same round trip for any address, subject and body. */
  lemma EncodedLinkRoundTrip(to: string, subject: string, body: string)
    requires '?' !in to
    ensures ParseMailto("mailto:" + to + "?subject=" + Encode(subject) + "&body=" + Encode(body)) ==
      Some(MailtoFields(to, subject, body))
  {
    var es := Encode(subject);
    var eb := Encode(body);
    LinkParts(to, es, eb);
    assert '&' !in es;
    ParseMailtoShape(to, es, eb);
    DecodeEncode(subject);
    DecodeEncode(body);
  }

  /** The built link, regrouped at its delimiters. */
  lemma LinkParts(to: string, es: string, eb: string)
    ensures "mailto:" + to + "?subject=" + es + "&body=" + eb ==
      "mailto:" + (to + ['?'] + ("subject=" + (es + ['&'] + ("body=" + eb))))
  {
    assert "?subject=" == ['?'] + "subject=";
    assert "&body=" == ['&'] + "body=";
  }
}
