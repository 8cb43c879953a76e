/** `sendWelcomeEmail` (backend/src/emails/emailHandlers.js): build the
    sender field and hand the welcome message to the mail provider. */
module EmailHandlers {
  import opened Common
  import opened JsText
  import opened EmailFormat

  /** The configured sender, `{ email, name }`; `None` is `undefined`. */
  datatype SenderConfig = SenderConfig(email: Option<string>, name: Option<string>)

  /** backend/src/lib/resend.js reads `ENV.RESEND_FROM` and
      `ENV.RESEND_FROM_NAME`, which backend/src/lib/env.js never defines
      (it defines `EMAIL_FROM` and `EMAIL_FROM_NAME`): both are `undefined`. */
  const ConfiguredSender: SenderConfig := SenderConfig(None, None)

  const FallbackEmail: string := "onboarding@resend.dev"
  const FallbackName: string := "Chatify"
  const WelcomeSubject: string := "Welcome to Chatify!"
  const SendFailedMessage: string := "Failed to send welcome email"

  /** `isValidEmail`: a string that matches the same pattern signup uses. */
  function IsValidEmail(v: Option<string>): (b: bool)
    ensures b <==> v.Some? && MatchesEmailPattern(v.value)
  {
    match v
    case None => false
    case Some(s) =>
      EmailFormatMatchesPattern(s);
      IsEmailFormat(s)
  }

  /** A printable ASCII character other than the space. */
  predicate IsVisibleAscii(c: char)
  {
    '!' <= c <= '~'
  }

  lemma VisibleAsciiHasNoWhitespace(s: string)
    requires forall k :: 0 <= k < |s| ==> IsVisibleAscii(s[k])
    ensures NoWhitespace(s)
  {
  }

  /** The fallback sender address is itself well formed. */
  lemma FallbackEmailIsValid()
    ensures IsEmailFormat(FallbackEmail)
  {
    var local, host := "onboarding", "resend.dev";
    var s := FallbackEmail;
    assert s == local + "@" + host;
    assert s[..10] == local && s[10 + 1..] == host;
    assert AtFree(local) && AtFree(host);
    assert host[6] == '.';
    VisibleAsciiHasNoWhitespace(s);
    assert 0 < 10 < |s| && s[10] == '@' && AtFree(s[..10]) && AtFree(s[10 + 1..]) && HasInnerDot(s[10 + 1..]);
  }

  function FromEmail(sender: SenderConfig): (r: string)
    ensures IsValidEmail(sender.email) ==> r == sender.email.value
    ensures !IsValidEmail(sender.email) ==> r == FallbackEmail
  {
    if IsValidEmail(sender.email) then sender.email.value else FallbackEmail
  }

  /** Whatever the configuration, the sender address is well formed. */
  lemma FromEmailIsValid(sender: SenderConfig)
    ensures IsEmailFormat(FromEmail(sender))
  {
    if !IsValidEmail(sender.email) {
      FallbackEmailIsValid();
    }
  }

  function FromName(sender: SenderConfig): (r: string)
    ensures r != ""
    ensures Truthy(sender.name) ==> r == sender.name.value
    ensures !Truthy(sender.name) ==> r == FallbackName
  {
    if Truthy(sender.name) then sender.name.value else FallbackName
  }

  /** The RFC 5322 `Name <address>` sender field: a non-empty display name
      followed by a well-formed address between angle brackets. */
  function FromField(sender: SenderConfig): (r: string)
    ensures exists name, addr :: name != "" && IsEmailFormat(addr) && r == name + " <" + addr + ">"
  {
    var name, addr := FromName(sender), FromEmail(sender);
    FromEmailIsValid(sender);
    name + " <" + addr + ">"
  }

  /** With the configuration as deployed, every welcome email is sent from the
      provider's fallback identity. */
  lemma DeployedSenderFallsBack()
    ensures FromField(ConfiguredSender) == "Chatify <onboarding@resend.dev>"
  {
    assert FromName(ConfiguredSender) == FallbackName && FromEmail(ConfiguredSender) == FallbackEmail;
  }

  /** A valid configured sender is used verbatim. */
  lemma ValidSenderUsed(email: string, name: string)
    requires IsEmailFormat(email) && name != ""
    ensures FromField(SenderConfig(Some(email), Some(name))) == name + " <" + email + ">"
  {
  }

  /** The HTML body, `createWelcomeEmailTemplate(name, clientURL)`; the
      template itself is not part of this model. */
  datatype WelcomeTemplate = WelcomeTemplate(name: string, clientUrl: Option<string>)

  /** The argument of `resendClient.emails.send`. */
  datatype EmailRequest = EmailRequest(from: string, to: string, subject: string, html: WelcomeTemplate)

  /** The provider's answer: whether its `error` field is set. */
  datatype ProviderReply = Delivered | ProviderError

  datatype SendResult = Sent(request: EmailRequest) | SendFailed(request: EmailRequest, message: string)

  function WelcomeRequest(email: string, name: string, clientUrl: Option<string>, sender: SenderConfig): EmailRequest
  {
    EmailRequest(FromField(sender), email, WelcomeSubject, WelcomeTemplate(name, clientUrl))
  }

  /** `sendWelcomeEmail(email, name, clientURL)`: one request to the provider;
      a provider error becomes the thrown "Failed to send welcome email". */
  function SendWelcomeEmail(email: string, name: string, clientUrl: Option<string>,
                            sender: SenderConfig, provider: EmailRequest -> ProviderReply): (r: SendResult)
    ensures r.request.to == email && r.request.subject == WelcomeSubject
    ensures r.request.from == FromField(sender)
    ensures r.request.html == WelcomeTemplate(name, clientUrl)
    ensures r.Sent? <==> provider(r.request) == Delivered
    ensures r.SendFailed? ==> r.message == SendFailedMessage
  {
    var request := WelcomeRequest(email, name, clientUrl, sender);
    match provider(request)
    case Delivered => Sent(request)
    case ProviderError => SendFailed(request, SendFailedMessage)
  }
}
