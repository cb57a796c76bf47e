/**
  The email-domain gate run once the signed-in user is loaded: the text after
  the first '@' (up to any second '@') must equal an allowed domain exactly;
  otherwise the user is told so and signed out.
 */
module DomainGuard {
  import opened Wrappers
  import opened Strings

  const ALLOWED_DOMAINS: seq<string> := ["hcmut.edu.vn"]

  /** The part of the auth provider's user the gate reads. */
  datatype User = User(primaryEmail: Option<string>)

  /** NoAction: the effect returned early. Accept: it ran and did nothing. RejectAndSignOut: alert, then `signOut()`. */
  datatype Verdict = NoAction | Accept | RejectAndSignOut

  /** `email.split('@')[1]`: undefined when there is no '@'. */
  function EmailDomain(email: string): (domain: Option<string>)
    ensures domain.Some? <==> '@' in email
    ensures domain.Some? ==> '@' !in domain.value
  {
    SplitCount(email, '@');
    var parts := Split(email, '@');
    if |parts| > 1 then Some(parts[1]) else None
  }

  /** `ALLOWED_DOMAINS.includes(domain)`; undefined is never included. */
  predicate Allowed(domain: Option<string>)
  {
    domain.Some? && domain.value in ALLOWED_DOMAINS
  }

  function Guard(isLoaded: bool, user: Option<User>): (v: Verdict)
    ensures !isLoaded || user.None? ==> v == NoAction
    ensures v == Accept ==>
              user.Some? && user.value.primaryEmail.Some?
              && EmailDomain(user.value.primaryEmail.value) == Some("hcmut.edu.vn")
  {
    if !isLoaded || user.None? then NoAction
    else match user.value.primaryEmail
      case None => NoAction
      case Some(email) =>
        if email == "" then NoAction
        else if Allowed(EmailDomain(email)) then Accept
        else RejectAndSignOut
  }

  /** Nothing happens until a loaded user with a non-empty primary email exists; then the verdict is the domain check. */
  lemma GuardSpec(isLoaded: bool, user: Option<User>)
    ensures Guard(isLoaded, user) == NoAction <==>
              !isLoaded || user.None? || user.value.primaryEmail.None? || user.value.primaryEmail.value == ""
    ensures Guard(isLoaded, user) == RejectAndSignOut <==>
              && isLoaded && user.Some? && user.value.primaryEmail.Some?
              && user.value.primaryEmail.value != ""
              && !Allowed(EmailDomain(user.value.primaryEmail.value))
  {
  }

  /** With one '@' or more, the checked domain is the text between the first '@' and the next (or the end). */
  lemma DomainIsSecondSegment(local: string, domain: string, tail: string)
    requires '@' !in local && '@' !in domain
    requires tail == "" || tail[0] == '@'
    ensures EmailDomain(local + "@" + domain + tail) == Some(domain)
  {
    var email := local + "@" + domain + tail;
    assert email == local + ['@'] + (domain + tail);
    SplitAtFirst(local, '@', domain + tail);
    if tail == "" {
      assert domain + tail == domain;
      SplitWithoutSeparator(domain, '@');
    } else {
      assert domain + tail == domain + ['@'] + tail[1..];
      SplitAtFirst(domain, '@', tail[1..]);
    }
  }

  /**
    For an address with an '@', acceptance is exact, case-sensitive equality of
    that segment with `hcmut.edu.vn`: `A@HCMUT.edu.vn` and `a@cs.hcmut.edu.vn`
    are rejected, while `a@hcmut.edu.vn@x.com` is accepted, since only the
    second segment is examined.
   */
  lemma AcceptExactly(local: string, domain: string, tail: string)
    requires '@' !in local && '@' !in domain
    requires tail == "" || tail[0] == '@'
    ensures Guard(true, Some(User(Some(local + "@" + domain + tail)))) ==
              (if domain == "hcmut.edu.vn" then Accept else RejectAndSignOut)
  {
    DomainIsSecondSegment(local, domain, tail);
    var email := local + "@" + domain + tail;
    assert email != "" by { assert |email| > |local|; }
  }

  /** An address without '@' has no domain and is rejected. */
  lemma NoAtRejected(email: string)
    requires '@' !in email && email != ""
    ensures EmailDomain(email) == None
    ensures Guard(true, Some(User(Some(email)))) == RejectAndSignOut
  {
    SplitWithoutSeparator(email, '@');
  }
}
