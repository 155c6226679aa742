/** The submission pipeline as a trace of timed UI actions: the page form's
    submit handler, the modal's `submitCTAForm`, `sendContactEmail` and its
    `mailto:` fallback. The e-mail service is an oracle: whether its library
    is loaded, and whether it accepts or rejects the request after some
    latency. Times are milliseconds after the submit event. */
module Dispatch {
  import opened Wrappers
  import opened Text
  import opened FormFields
  import opened EmailPayload

  /** One effect on the page. */
  datatype Action =
    | MarkBorders(borders: seq<Border>)
    | SetButtonLabel(html: string)
    | SetButtonDisabled(disabled: bool)
    | ShowToast(message: string, kind: string)
    | CallService(serviceId: string, templateId: string, params: TemplateParams)
    | OpenLink(href: string)
    | ResetForm
    | CloseModal

  /** An action and the time it happens at. */
  datatype Timed = Timed(at: nat, action: Action)

  /** What the e-mail service does with a request, and after how long. */
  datatype ServiceReply = Accepted(latency: nat) | Rejected(latency: nat)

  /** Whether the service library is on the page, and how it replies. */
  datatype Environment = Environment(libraryLoaded: bool, reply: ServiceReply)

  const SendingLabel := "Sending..."
  const SubmittingLabel := "<i class=\"fas fa-spinner fa-spin\"></i> Submitting..."
  const SuccessLabel := "<i class=\"fas fa-check\"></i> Success!"
  const MissingFieldsMessage := "Please fill in all required fields"
  const ThanksMessage := "Thank you! We'll contact you soon."
  const FailureMessage := "Failed to send message. Please try again or contact us directly."
  const OpeningMessage := "Opening your email client..."
  const SuccessDelay := 1500
  const FallbackDelay := 1000

  /** Actions that all happen at time `t`. */
  function At(t: nat, acts: seq<Action>): (tr: seq<Timed>)
    ensures |tr| == |acts| && forall i :: 0 <= i < |acts| ==> tr[i] == Timed(t, acts[i])
  {
    seq(|acts|, i requires 0 <= i < |acts| => Timed(t, acts[i]))
  }

  /** Closing the modal when the form is in one, resetting the form and
      restoring the button. */
  function RestoreActions(originalText: string, isModal: bool): seq<Action> {
    (if isModal then [CloseModal] else [])
    + [ResetForm, SetButtonLabel(originalText), SetButtonDisabled(false)]
  }

  /** `sendEmailViaMailto` called at time `t` with the link `href`: open
      the link, say so, and restore the form a second later. */
  function FallbackTrace(href: string, originalText: string, isModal: bool, t: nat): seq<Timed> {
    At(t, [OpenLink(href), ShowToast(OpeningMessage, "info")])
    + At(t + FallbackDelay, RestoreActions(originalText, isModal))
  }

  /** The fallback for a payload, with its mail link. */
  function MailtoFallback(d: EmailData, originalText: string, isModal: bool, cfg: Config, t: nat): seq<Timed> {
    FallbackTrace(MailtoLink(cfg, d), originalText, isModal, t)
  }

  /** The request `emailjs.send` is given for a payload. */
  function ServiceCall(d: EmailData, cfg: Config): Action {
    CallService(cfg.serviceId, cfg.templateId, MakeTemplateParams(d, cfg))
  }

  /** A call the service accepts after `latency`: the success label, then
      the thanks and the restore `SuccessDelay` later. */
  function AcceptedTrace(call: Action, originalText: string, isModal: bool, t: nat, latency: nat): seq<Timed> {
    At(t, [call])
    + (At(t + latency, [SetButtonLabel(SuccessLabel)])
       + At(t + latency + SuccessDelay, [ShowToast(ThanksMessage, "success")] + RestoreActions(originalText, isModal)))
  }

  /** A call the service rejects after `latency`: the error, the button
      enabled again, then the fallback with the link `href`. */
  function RejectedTrace(call: Action, href: string, originalText: string, isModal: bool,
                         t: nat, latency: nat): seq<Timed> {
    At(t, [call])
    + (At(t + latency, FailureActions(originalText))
       + FallbackTrace(href, originalText, isModal, t + latency))
  }

  /** What a rejection shows at once: the error, the original label, the
      button enabled. */
  function FailureActions(originalText: string): seq<Action> {
    [ShowToast(FailureMessage, "error"), SetButtonLabel(originalText), SetButtonDisabled(false)]
  }

  /** `sendContactEmail` called at time `t`. */
  function SendContactEmail(d: EmailData, originalText: string, isModal: bool, cfg: Config,
                            env: Environment, t: nat): seq<Timed> {
    if Unconfigured(cfg) || !env.libraryLoaded then
      MailtoFallback(d, originalText, isModal, cfg, t)
    else
      match env.reply
      case Accepted(latency) => AcceptedTrace(ServiceCall(d, cfg), originalText, isModal, t, latency)
      case Rejected(latency) => RejectedTrace(ServiceCall(d, cfg), MailtoLink(cfg, d), originalText, isModal, t, latency)
  }

  /** The outlines the `[required]` pass gives the controls. */
  function Borders(cs: seq<Control>): (bs: seq<Border>)
    ensures |bs| == |cs| && forall i :: 0 <= i < |cs| ==> bs[i] == BorderOf(cs[i])
    ensures forall i :: 0 <= i < |cs| ==> (bs[i] == ErrorBorder <==> Blank(cs[i]))
  {
    seq(|cs|, i requires 0 <= i < |cs| => BorderOf(cs[i]))
  }

  /** The synchronous opening of a submission, stamped at time 0, followed
      by `sendContactEmail`. */
  function Dispatching(opening: seq<Action>, d: EmailData, originalText: string, isModal: bool,
                       cfg: Config, env: Environment): seq<Timed> {
    At(0, opening) + SendContactEmail(d, originalText, isModal, cfg, env, 0)
  }

  /** What the page form does before sending: outline the controls, show
      "Sending..." and disable the button. */
  function PageOpening(cs: seq<Control>): seq<Action> {
    [MarkBorders(Borders(cs)), SetButtonLabel(SendingLabel), SetButtonDisabled(true)]
  }

  /** What the modal form does before sending. */
  const ModalOpening: seq<Action> := [SetButtonLabel(SubmittingLabel), SetButtonDisabled(true)]

  /** The page form's submit handler. */
  function SubmitPageForm(cs: seq<Control>, originalText: string, cfg: Config, env: Environment): seq<Timed> {
    if FormValid(cs) then
      Dispatching(PageOpening(cs), PagePayload(Collect(cs)), originalText, false, cfg, env)
    else
      At(0, [MarkBorders(Borders(cs))] + InvalidTail)
  }

  /** `submitCTAForm`: the modal form relies on the browser's own check of
      its `required` inputs and starts sending at once. */
  function SubmitModalForm(entries: seq<(string, string)>, modalTitle: Option<string>, originalText: string,
                           cfg: Config, env: Environment): seq<Timed> {
    Dispatching(ModalOpening, ModalPayload(entries, modalTitle), originalText, true, cfg, env)
  }

  /** A notification shown. */
  datatype Note = Note(message: string, kind: string)

  /** What the actions act on: the outlines, the submit button, how often
      the form was reset, whether the modal is open, the notifications
      shown, the requests the service was given and the links opened. */
  datatype Ui = Ui(
    borders: seq<Border>,
    buttonLabel: string,
    buttonDisabled: bool,
    formResets: nat,
    modalOpen: bool,
    notes: seq<Note>,
    sent: seq<TemplateParams>,
    links: seq<string>)

  function Perform(ui: Ui, a: Action): Ui {
    match a
    case MarkBorders(bs) => ui.(borders := bs)
    case SetButtonLabel(h) => ui.(buttonLabel := h)
    case SetButtonDisabled(x) => ui.(buttonDisabled := x)
    case ShowToast(m, k) => ui.(notes := ui.notes + [Note(m, k)])
    case CallService(_, _, p) => ui.(sent := ui.sent + [p])
    case OpenLink(h) => ui.(links := ui.links + [h])
    case ResetForm => ui.(formResets := ui.formResets + 1)
    case CloseModal => ui.(modalOpen := false)
  }

  /** Performs actions in order. */
  function Apply(ui: Ui, acts: seq<Action>): Ui
    decreases |acts|
  {
    if acts == [] then ui else Apply(Perform(ui, acts[0]), acts[1..])
  }

  /** Performs the actions of a trace in order. */
  function Run(ui: Ui, tr: seq<Timed>): Ui
    decreases |tr|
  {
    if tr == [] then ui else Run(Perform(ui, tr[0].action), tr[1..])
  }

  lemma {:induction false} RunAppend(ui: Ui, a: seq<Timed>, b: seq<Timed>)
    ensures Run(ui, a + b) == Run(Run(ui, a), b)
    decreases |a|
  {
    if a != [] {
      assert (a + b)[0] == a[0];
      assert (a + b)[1..] == a[1..] + b;
      RunAppend(Perform(ui, a[0].action), a[1..], b);
    } else {
      assert a + b == b;
    }
  }

  lemma {:induction false} ApplyAppend(ui: Ui, a: seq<Action>, b: seq<Action>)
    ensures Apply(ui, a + b) == Apply(Apply(ui, a), b)
    decreases |a|
  {
    if a != [] {
      assert (a + b)[0] == a[0];
      assert (a + b)[1..] == a[1..] + b;
      ApplyAppend(Perform(ui, a[0]), a[1..], b);
    } else {
      assert a + b == b;
    }
  }

  /** Running actions stamped with one time performs them in order. */
  lemma {:induction false} RunAt(ui: Ui, t: nat, acts: seq<Action>)
    ensures Run(ui, At(t, acts)) == Apply(ui, acts)
    decreases |acts|
  {
    if acts != [] {
      assert At(t, acts)[1..] == At(t, acts[1..]);
      RunAt(Perform(ui, acts[0]), t, acts[1..]);
    }
  }

  /** Restoring leaves the form reset once, the button enabled with its
      original label, and the modal closed exactly when the form is in one. */
  lemma ApplyRestore(ui: Ui, originalText: string, isModal: bool)
    ensures Apply(ui, RestoreActions(originalText, isModal)) ==
      ui.(formResets := ui.formResets + 1, modalOpen := ui.modalOpen && !isModal,
          buttonLabel := originalText, buttonDisabled := false)
  {
    var tail := [ResetForm, SetButtonLabel(originalText), SetButtonDisabled(false)];
    var head: seq<Action> := if isModal then [CloseModal] else [];
    ApplyAppend(ui, head, tail);
    var u := Apply(ui, head);
    assert u == ui.(modalOpen := ui.modalOpen && !isModal) by {
      if isModal {
        assert Apply(ui, head) == Apply(Perform(ui, CloseModal), []);
      }
    }
    assert RestoreActions(originalText, isModal) == head + tail;
    var u1 := Perform(u, ResetForm);
    var u2 := Perform(u1, SetButtonLabel(originalText));
    var u3 := Perform(u2, SetButtonDisabled(false));
    assert Apply(u2, [SetButtonDisabled(false)]) == u3;
    assert Apply(u1, [SetButtonLabel(originalText), SetButtonDisabled(false)]) == u3;
    assert Apply(u, tail) == u3;
  }

  /** The fallback opens the link once, shows one "opening" notification,
      and restores the form. */
  lemma RunFallback(ui: Ui, href: string, originalText: string, isModal: bool, t: nat)
    ensures Run(ui, FallbackTrace(href, originalText, isModal, t)) ==
      ui.(links := ui.links + [href], notes := ui.notes + [Note(OpeningMessage, "info")],
          formResets := ui.formResets + 1, modalOpen := ui.modalOpen && !isModal,
          buttonLabel := originalText, buttonDisabled := false)
  {
    var head := [OpenLink(href), ShowToast(OpeningMessage, "info")];
    var rest := RestoreActions(originalText, isModal);
    RunAppend(ui, At(t, head), At(t + FallbackDelay, rest));
    RunAt(ui, t, head);
    var u2 := ui.(links := ui.links + [href], notes := ui.notes + [Note(OpeningMessage, "info")]);
    assert Apply(Perform(ui, head[0]), [head[1]]) == u2;
    assert Apply(ui, head) == u2;
    RunAt(u2, t + FallbackDelay, rest);
    ApplyRestore(u2, originalText, isModal);
  }

  /** The service is attempted when it is configured and its library is
      loaded. */
  predicate Attempted(cfg: Config, env: Environment) {
    !Unconfigured(cfg) && env.libraryLoaded
  }

  /** The request is delivered when it is attempted and accepted. */
  predicate Delivered(cfg: Config, env: Environment) {
    Attempted(cfg, env) && env.reply.Accepted?
  }

  /** The notifications one call of `sendContactEmail` shows. */
  function SendNotes(cfg: Config, env: Environment): seq<Note> {
    if Delivered(cfg, env) then [Note(ThanksMessage, "success")]
    else if Attempted(cfg, env) then [Note(FailureMessage, "error"), Note(OpeningMessage, "info")]
    else [Note(OpeningMessage, "info")]
  }

  /** The outcome of one call of `sendContactEmail`, whatever the oracle
      does: the service is given the template parameters once when it is
      configured and loaded and never otherwise (no retry); the mail link is
      opened exactly once unless the service accepted; and in every case the
      form ends reset once, the button enabled with its original label, and
      the modal closed exactly when the submission came from it. */
  lemma SendContactEmailOutcome(ui: Ui, d: EmailData, originalText: string, isModal: bool,
                                cfg: Config, env: Environment, t: nat)
    ensures var after := Run(ui, SendContactEmail(d, originalText, isModal, cfg, env, t));
      && after.sent == ui.sent + (if Attempted(cfg, env) then [MakeTemplateParams(d, cfg)] else [])
      && after.links == ui.links + (if Delivered(cfg, env) then [] else [MailtoLink(cfg, d)])
      && after.notes == ui.notes + SendNotes(cfg, env)
      && after.formResets == ui.formResets + 1
      && after.modalOpen == (ui.modalOpen && !isModal)
      && after.buttonLabel == originalText && !after.buttonDisabled
      && after.borders == ui.borders
  {
    if Unconfigured(cfg) || !env.libraryLoaded {
      RunFallback(ui, MailtoLink(cfg, d), originalText, isModal, t);
    } else if env.reply.Accepted? {
      RunAccepted(ui, ServiceCall(d, cfg), originalText, isModal, t, env.reply.latency);
    } else {
      RunRejected(ui, ServiceCall(d, cfg), MailtoLink(cfg, d), originalText, isModal, t, env.reply.latency);
    }
  }

  /** The service is called once and `call` at time `t` adds it to `sent`. */
  lemma RunCall(ui: Ui, t: nat, a: Action)
    requires a.CallService?
    ensures Run(ui, At(t, [a])) == ui.(sent := ui.sent + [a.params])
  {
    RunAt(ui, t, [a]);
    assert Apply(ui, [a]) == Apply(Perform(ui, a), []);
  }

  /** An accepted call records the request, thanks the user once and
      restores the form. */
  lemma RunAccepted(ui: Ui, call: Action, originalText: string, isModal: bool, t: nat, latency: nat)
    requires call.CallService?
    ensures Run(ui, AcceptedTrace(call, originalText, isModal, t, latency)) ==
      ui.(sent := ui.sent + [call.params],
          notes := ui.notes + [Note(ThanksMessage, "success")],
          formResets := ui.formResets + 1, modalOpen := ui.modalOpen && !isModal,
          buttonLabel := originalText, buttonDisabled := false)
  {
    var mid := At(t + latency, [SetButtonLabel(SuccessLabel)]);
    var last := [ShowToast(ThanksMessage, "success")] + RestoreActions(originalText, isModal);
    RunAppend(ui, At(t, [call]), mid + At(t + latency + SuccessDelay, last));
    RunCall(ui, t, call);
    var u1 := ui.(sent := ui.sent + [call.params]);
    RunAppend(u1, mid, At(t + latency + SuccessDelay, last));
    RunAt(u1, t + latency, [SetButtonLabel(SuccessLabel)]);
    var u2 := u1.(buttonLabel := SuccessLabel);
    assert Apply(u1, [SetButtonLabel(SuccessLabel)]) == Apply(u2, []);
    RunAt(u2, t + latency + SuccessDelay, last);
    ApplyAppend(u2, [ShowToast(ThanksMessage, "success")], RestoreActions(originalText, isModal));
    var u3 := u2.(notes := u2.notes + [Note(ThanksMessage, "success")]);
    assert Apply(u2, [ShowToast(ThanksMessage, "success")]) == Apply(u3, []);
    ApplyRestore(u3, originalText, isModal);
  }

  /** A rejected call records the request, shows the error and the
      "opening" notification, opens the link once and restores the form. */
  lemma RunRejected(ui: Ui, call: Action, href: string, originalText: string, isModal: bool, t: nat, latency: nat)
    requires call.CallService?
    ensures Run(ui, RejectedTrace(call, href, originalText, isModal, t, latency)) ==
      ui.(sent := ui.sent + [call.params],
          links := ui.links + [href],
          notes := ui.notes + [Note(FailureMessage, "error"), Note(OpeningMessage, "info")],
          formResets := ui.formResets + 1, modalOpen := ui.modalOpen && !isModal,
          buttonLabel := originalText, buttonDisabled := false)
  {
    var three := FailureActions(originalText);
    var fb := FallbackTrace(href, originalText, isModal, t + latency);
    RunAppend(ui, At(t, [call]), At(t + latency, three) + fb);
    RunCall(ui, t, call);
    var u1 := ui.(sent := ui.sent + [call.params]);
    RunAppend(u1, At(t + latency, three), fb);
    RunAt(u1, t + latency, three);
    ApplyFailure(u1, originalText);
    var v3 := u1.(notes := u1.notes + [Note(FailureMessage, "error")], buttonLabel := originalText, buttonDisabled := false);
    RunFallback(v3, href, originalText, isModal, t + latency);
  }

  lemma ApplyFailure(ui: Ui, originalText: string)
    ensures Apply(ui, FailureActions(originalText)) ==
      ui.(notes := ui.notes + [Note(FailureMessage, "error")], buttonLabel := originalText, buttonDisabled := false)
  {
    var three := FailureActions(originalText);
    var v1 := ui.(notes := ui.notes + [Note(FailureMessage, "error")]);
    var v2 := v1.(buttonLabel := originalText);
    var v3 := v2.(buttonDisabled := false);
    assert Apply(v2, [SetButtonDisabled(false)]) == Apply(v3, []);
    assert Apply(v1, three[1..]) == v3;
  }

  /** Whether an action hands the request to the service or to the mail
      client. */
  predicate IsDispatch(a: Action) {
    a.CallService? || a.OpenLink?
  }

  /** Actions happen in time order. */
  ghost predicate Chronological(tr: seq<Timed>) {
    forall i, j :: 0 <= i < j < |tr| ==> tr[i].at <= tr[j].at
  }

  /** Every action of the trace happens at or after `t`. */
  ghost predicate From(tr: seq<Timed>, t: nat) {
    forall i :: 0 <= i < |tr| ==> t <= tr[i].at
  }

  /** Every action of the trace happens at or before `t`. */
  ghost predicate Until(tr: seq<Timed>, t: nat) {
    forall i :: 0 <= i < |tr| ==> tr[i].at <= t
  }

  lemma ChronologicalAppend(a: seq<Timed>, b: seq<Timed>, s: nat, t: nat)
    requires Chronological(a) && Chronological(b)
    requires From(a, s) && Until(a, t) && From(b, t) && s <= t
    ensures Chronological(a + b) && From(a + b, s)
  {
    forall i, j | 0 <= i < j < |a + b| ensures (a + b)[i].at <= (a + b)[j].at {
      if i < |a| && j >= |a| {
        assert (a + b)[j] == b[j - |a|];
      }
    }
  }

  lemma FallbackChronological(href: string, originalText: string, isModal: bool, t: nat)
    ensures var tr := FallbackTrace(href, originalText, isModal, t);
      Chronological(tr) && From(tr, t)
  {
    ChronologicalAppend(At(t, [OpenLink(href), ShowToast(OpeningMessage, "info")]),
                        At(t + FallbackDelay, RestoreActions(originalText, isModal)), t, t + FallbackDelay);
  }

  lemma AcceptedChronological(call: Action, originalText: string, isModal: bool, t: nat, latency: nat)
    ensures var tr := AcceptedTrace(call, originalText, isModal, t, latency);
      Chronological(tr) && From(tr, t)
  {
    var mid := At(t + latency, [SetButtonLabel(SuccessLabel)]);
    var last := At(t + latency + SuccessDelay, [ShowToast(ThanksMessage, "success")] + RestoreActions(originalText, isModal));
    ChronologicalAppend(mid, last, t + latency, t + latency + SuccessDelay);
    ChronologicalAppend(At(t, [call]), mid + last, t, t);
  }

  lemma RejectedChronological(call: Action, href: string, originalText: string, isModal: bool, t: nat, latency: nat)
    ensures var tr := RejectedTrace(call, href, originalText, isModal, t, latency);
      Chronological(tr) && From(tr, t)
  {
    var mid := At(t + latency, FailureActions(originalText));
    var fb := FallbackTrace(href, originalText, isModal, t + latency);
    FallbackChronological(href, originalText, isModal, t + latency);
    ChronologicalAppend(mid, fb, t + latency, t + latency);
    ChronologicalAppend(At(t, [call]), mid + fb, t, t);
  }

  /** The trace of `sendContactEmail` is in time order and starts no
      earlier than the call. */
  lemma SendContactEmailChronological(d: EmailData, originalText: string, isModal: bool,
                                      cfg: Config, env: Environment, t: nat)
    ensures var tr := SendContactEmail(d, originalText, isModal, cfg, env, t);
      Chronological(tr) && From(tr, t)
  {
    if !Attempted(cfg, env) {
      FallbackChronological(MailtoLink(cfg, d), originalText, isModal, t);
    } else if env.reply.Accepted? {
      AcceptedChronological(ServiceCall(d, cfg), originalText, isModal, t, env.reply.latency);
    } else {
      RejectedChronological(ServiceCall(d, cfg), MailtoLink(cfg, d), originalText, isModal, t, env.reply.latency);
    }
  }

  /** A whole submission is in time order. */
  lemma {:induction false} DispatchingChronological(opening: seq<Action>, d: EmailData, originalText: string,
                                                    isModal: bool, cfg: Config, env: Environment)
    ensures Chronological(Dispatching(opening, d, originalText, isModal, cfg, env))
  {
    SendContactEmailChronological(d, originalText, isModal, cfg, env, 0);
    ChronologicalAppend(At(0, opening), SendContactEmail(d, originalText, isModal, cfg, env, 0), 0, 0);
  }

  /** After a rejection the button is enabled again before the mail link
      is opened, and the service is called only once. */
  lemma RejectionReenablesThenFallsBack(d: EmailData, originalText: string, isModal: bool,
                                        cfg: Config, env: Environment, t: nat)
    requires Attempted(cfg, env) && env.reply.Rejected?
    ensures var tr := SendContactEmail(d, originalText, isModal, cfg, env, t);
      && |tr| > 4
      && tr[0].action.CallService?
      && tr[3].action == SetButtonDisabled(false)
      && tr[4].action == OpenLink(MailtoLink(cfg, d))
      && forall i :: 0 < i < |tr| ==> !tr[i].action.CallService?
  {
    RejectedTraceShape(ServiceCall(d, cfg), MailtoLink(cfg, d), originalText, isModal, t, env.reply.latency);
  }

  /** A rejected trace calls first, re-enables the button as its fourth
      action, opens the link as its fifth, and calls nothing else. */
  lemma {:induction false} RejectedTraceShape(call: Action, href: string, originalText: string,
                                              isModal: bool, t: nat, latency: nat)
    ensures var tr := RejectedTrace(call, href, originalText, isModal, t, latency);
      && |tr| > 4
      && tr[0].action == call
      && tr[3].action == SetButtonDisabled(false)
      && tr[4].action == OpenLink(href)
      && forall i :: 0 < i < |tr| ==> !tr[i].action.CallService?
  {
    var mid := At(t + latency, FailureActions(originalText));
    var head := At(t + latency, [OpenLink(href), ShowToast(OpeningMessage, "info")]);
    var rest := At(t + latency + FallbackDelay, RestoreActions(originalText, isModal));
    var tr := RejectedTrace(call, href, originalText, isModal, t, latency);
    assert tr == At(t, [call]) + (mid + (head + rest));
    var r := RestoreActions(originalText, isModal);
    assert forall k :: 0 <= k < |r| ==> !r[k].CallService?;
    forall i | 0 < i < |tr| ensures !tr[i].action.CallService? {
      if i < 4 {
        assert tr[i] == mid[i - 1];
      } else if i < 6 {
        assert tr[i] == head[i - 4];
      } else {
        assert tr[i] == rest[i - 6];
      }
    }
    assert tr[3] == mid[2] && tr[4] == head[0];
  }

  /** What an invalid page form does, all at time 0. */
  const InvalidTail: seq<Action> := [ShowToast(MissingFieldsMessage, "error")]

  lemma {:induction false} InvalidPageFormTrace(cs: seq<Control>, originalText: string, cfg: Config, env: Environment)
    requires !FormValid(cs)
    ensures SubmitPageForm(cs, originalText, cfg, env) == At(0, [MarkBorders(Borders(cs))] + InvalidTail)
  {
  }

  lemma ApplyInvalid(ui: Ui, bs: seq<Border>)
    ensures Run(ui, At(0, [MarkBorders(bs)] + InvalidTail)) ==
      ui.(borders := bs, notes := ui.notes + [Note(MissingFieldsMessage, "error")])
  {
    var acts := [MarkBorders(bs)] + InvalidTail;
    RunAt(ui, 0, acts);
    var u1 := ui.(borders := bs);
    assert Apply(u1, acts[1..]) == Apply(u1.(notes := ui.notes + [Note(MissingFieldsMessage, "error")]), []);
  }

  /** An invalid page form outlines its blank required controls in red,
      shows one error notification, and dispatches nothing: neither the
      service nor the mail client is used and the button is left alone. */
  lemma {:induction false} InvalidPageFormDispatchesNothing(ui: Ui, cs: seq<Control>, originalText: string, cfg: Config, env: Environment)
    requires !FormValid(cs)
    ensures Run(ui, SubmitPageForm(cs, originalText, cfg, env)) ==
      ui.(borders := Borders(cs), notes := ui.notes + [Note(MissingFieldsMessage, "error")])
  {
    InvalidPageFormTrace(cs, originalText, cfg, env);
    ApplyInvalid(ui, Borders(cs));
  }

  /** The first actions of a trace stamped at `t`. */
  lemma AtPrefix(t: nat, acts: seq<Action>, rest: seq<Timed>)
    ensures |At(t, acts) + rest| == |acts| + |rest|
    ensures forall i :: 0 <= i < |acts| ==> (At(t, acts) + rest)[i] == Timed(t, acts[i])
  {
  }

  /** An opening that ends with the button disabled and dispatches nothing
      comes before every dispatch. */
  lemma {:induction false} DisabledBeforeDispatch(opening: seq<Action>, d: EmailData, originalText: string,
                                                  isModal: bool, cfg: Config, env: Environment)
    requires |opening| > 0 && opening[|opening| - 1] == SetButtonDisabled(true)
    requires forall i :: 0 <= i < |opening| ==> !IsDispatch(opening[i])
    ensures var tr := Dispatching(opening, d, originalText, isModal, cfg, env);
      && |tr| > |opening|
      && tr[|opening| - 1].action == SetButtonDisabled(true)
      && forall i :: 0 <= i < |tr| && IsDispatch(tr[i].action) ==> |opening| <= i
  {
    AtPrefix(0, opening, SendContactEmail(d, originalText, isModal, cfg, env, 0));
  }

  /** Running a submission performs its opening, then `sendContactEmail`. */
  lemma {:induction false} RunDispatching(ui: Ui, opening: seq<Action>, d: EmailData, originalText: string,
                                          isModal: bool, cfg: Config, env: Environment)
    ensures Run(ui, Dispatching(opening, d, originalText, isModal, cfg, env)) ==
      Run(Apply(ui, opening), SendContactEmail(d, originalText, isModal, cfg, env, 0))
  {
    RunAppend(ui, At(0, opening), SendContactEmail(d, originalText, isModal, cfg, env, 0));
    RunAt(ui, 0, opening);
  }

  /** After a submission the service was given the request once when it
      is configured and loaded, the mail link was opened unless the service
      accepted, and the form and button are restored; what the opening did
      to the outlines stays. */
  lemma {:induction false} DispatchingOutcome(ui: Ui, opening: seq<Action>, d: EmailData, originalText: string,
                                              isModal: bool, cfg: Config, env: Environment)
    ensures var before := Apply(ui, opening);
      var after := Run(ui, Dispatching(opening, d, originalText, isModal, cfg, env));
      && after.sent == before.sent + (if Attempted(cfg, env) then [MakeTemplateParams(d, cfg)] else [])
      && after.links == before.links + (if Delivered(cfg, env) then [] else [MailtoLink(cfg, d)])
      && after.notes == before.notes + SendNotes(cfg, env)
      && after.formResets == before.formResets + 1
      && after.modalOpen == (before.modalOpen && !isModal)
      && after.buttonLabel == originalText && !after.buttonDisabled
      && after.borders == before.borders
  {
    RunDispatching(ui, opening, d, originalText, isModal, cfg, env);
    SendContactEmailOutcome(Apply(ui, opening), d, originalText, isModal, cfg, env, 0);
  }

  lemma ApplyPageOpening(ui: Ui, cs: seq<Control>)
    ensures Apply(ui, PageOpening(cs)) == ui.(borders := Borders(cs), buttonLabel := SendingLabel, buttonDisabled := true)
  {
    var acts := PageOpening(cs);
    var u1 := ui.(borders := Borders(cs));
    var u2 := u1.(buttonLabel := SendingLabel);
    var u3 := u2.(buttonDisabled := true);
    assert Apply(u2, [SetButtonDisabled(true)]) == Apply(u3, []);
    assert Apply(u1, acts[1..]) == u3;
  }

  lemma ApplyModalOpening(ui: Ui)
    ensures Apply(ui, ModalOpening) == ui.(buttonLabel := SubmittingLabel, buttonDisabled := true)
  {
    var u1 := ui.(buttonLabel := SubmittingLabel);
    var u2 := u1.(buttonDisabled := true);
    assert Apply(u1, ModalOpening[1..]) == Apply(u2, []);
  }

  /** A valid page form disables its button before anything is dispatched. */
  lemma {:induction false} ValidPageFormDisablesFirst(cs: seq<Control>, originalText: string, cfg: Config, env: Environment)
    requires FormValid(cs)
    ensures var tr := SubmitPageForm(cs, originalText, cfg, env);
      && |tr| > 3
      && tr[2].action == SetButtonDisabled(true)
      && forall i :: 0 <= i < |tr| && IsDispatch(tr[i].action) ==> 2 < i
  {
    DisabledBeforeDispatch(PageOpening(cs), PagePayload(Collect(cs)), originalText, false, cfg, env);
  }

  /** A valid page form sends what its controls hold, through the service
      or the mail client, and ends with the button restored. */
  lemma {:induction false} ValidPageFormOutcome(ui: Ui, cs: seq<Control>, originalText: string, cfg: Config, env: Environment)
    requires FormValid(cs)
    ensures var after := Run(ui, SubmitPageForm(cs, originalText, cfg, env));
      var d := PagePayload(Collect(cs));
      && after.sent == ui.sent + (if Attempted(cfg, env) then [MakeTemplateParams(d, cfg)] else [])
      && after.links == ui.links + (if Delivered(cfg, env) then [] else [MailtoLink(cfg, d)])
      && after.notes == ui.notes + SendNotes(cfg, env)
      && !after.buttonDisabled && after.buttonLabel == originalText
      && after.formResets == ui.formResets + 1
  {
    ApplyPageOpening(ui, cs);
    DispatchingOutcome(ui, PageOpening(cs), PagePayload(Collect(cs)), originalText, false, cfg, env);
  }

  /** The modal form likewise disables its button before dispatching. */
  lemma {:induction false} ModalFormDisablesFirst(entries: seq<(string, string)>, modalTitle: Option<string>,
                                                  originalText: string, cfg: Config, env: Environment)
    ensures var tr := SubmitModalForm(entries, modalTitle, originalText, cfg, env);
      && |tr| > 2
      && tr[1].action == SetButtonDisabled(true)
      && forall i :: 0 <= i < |tr| && IsDispatch(tr[i].action) ==> 1 < i
  {
    DisabledBeforeDispatch(ModalOpening, ModalPayload(entries, modalTitle), originalText, true, cfg, env);
  }

  /** A modal submission ends with the modal closed, the form reset and
      the button restored, whatever the service does. */
  lemma {:induction false} ModalFormOutcome(ui: Ui, entries: seq<(string, string)>, modalTitle: Option<string>,
                                            originalText: string, cfg: Config, env: Environment)
    ensures var after := Run(ui, SubmitModalForm(entries, modalTitle, originalText, cfg, env));
      var d := ModalPayload(entries, modalTitle);
      && after.sent == ui.sent + (if Attempted(cfg, env) then [MakeTemplateParams(d, cfg)] else [])
      && after.links == ui.links + (if Delivered(cfg, env) then [] else [MailtoLink(cfg, d)])
      && !after.modalOpen && !after.buttonDisabled && after.buttonLabel == originalText
      && after.formResets == ui.formResets + 1
  {
    ApplyModalOpening(ui);
    DispatchingOutcome(ui, ModalOpening, ModalPayload(entries, modalTitle), originalText, true, cfg, env);
  }
}
