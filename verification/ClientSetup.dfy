/** The security part of the registration form: which changes it offers in each
    state, and what holds of every draft it can reach from an empty one. */
module ClientSetup {
  import opened Texts
  import opened ClientDraft
  import TextLists

  datatype Constraint = Dpop | Mtls | Bearer

  const SECRET := "client_secret_basic"
  const JWT := "private_key_jwt"
  const TLS := "tls_client_auth"
  const SELF_SIGNED := "self_signed_tls_client_auth"
  const NONE := "none"

  function EmptyDraft(): Draft {
    Draft([], Fapi, JWT, Some(true), Some(false), SubjectDn, "", "", "web", "", "",
          ["authorization_code"], "openid", "EdDSA", AllAlgs(map[]),
          None, Some(false), "public", "", "", "", "active", false, false, "")
  }

  // ----- the transitions -----

  predicate UsesMtls(authMethod: string) { authMethod == TLS || authMethod == SELF_SIGNED }

  function DefaultMethod(profile: Profile): string {
    match profile
    case Oidc => SECRET
    case Public => NONE
    case Fapi => JWT
  }

  predicate BearerSelected(d: Draft) { d.dpopBound == Some(false) && d.certificateBound != Some(true) }

  function ChangeProfile(d: Draft, profile: Profile): Draft {
    d.(profile := profile,
       authMethod := DefaultMethod(profile),
       jwks := if profile.Fapi? then d.jwks else "",
       jwksUri := if profile.Fapi? then d.jwksUri else "",
       subjectValue := "",
       certificateBound := if profile.Public? then Some(false) else d.certificateBound,
       dpopBound := if profile.Public? || (profile.Fapi? && BearerSelected(d)) then Some(true) else d.dpopBound,
       mtlsAliases := Some(UsesMtls(DefaultMethod(profile)) || d.certificateBound == Some(true)))
  }

  function ChangeMethod(d: Draft, authMethod: string): Draft {
    d.(authMethod := authMethod,
       subjectValue := if authMethod == TLS then d.subjectValue else "",
       mtlsAliases := Some(UsesMtls(authMethod) || d.certificateBound == Some(true)))
  }

  function ChangeConstraint(d: Draft, constraint: Constraint): Draft {
    d.(dpopBound := Some(constraint == Dpop),
       certificateBound := Some(constraint == Mtls),
       mtlsAliases := Some(constraint == Mtls || UsesMtls(d.authMethod)))
  }

  // ----- what the form offers -----

  /** The authentication methods offered, given those discovery lists. */
  function Methods(d: Draft, discovered: seq<string>): seq<string> {
    if d.profile.Public? then [NONE]
    else Offered((if d.profile.Oidc? then [SECRET] else []) + [JWT, TLS, SELF_SIGNED], d, discovered)
  }

  function Offered(candidates: seq<string>, d: Draft, discovered: seq<string>): seq<string> {
    if candidates == [] then []
    else
      var m := candidates[0];
      (if m == d.authMethod || m == SECRET || m in discovered then [m] else [])
      + Offered(candidates[1..], d, discovered)
  }

  datatype Change =
    | SetProfile(profile: Profile)
    | SetMethod(authMethod: string, discovered: seq<string>)
    | SetSubjectField(field: SubjectField)
    | SetSubjectValue(text: string)
    | SetConstraint(constraint: Constraint, aliasesDiscovered: bool)
    | EditRest(next: Draft)                         // any other box of the form

  /** The members other boxes of the form leave alone. */
  predicate SameSecurity(a: Draft, b: Draft) {
    && a.profile == b.profile && a.authMethod == b.authMethod && a.dpopBound == b.dpopBound
    && a.mtlsAliases == b.mtlsAliases && a.subjectField == b.subjectField
    && a.subjectValue == b.subjectValue && a.certificateBound == b.certificateBound
  }

  predicate Offers(d: Draft, change: Change) {
    match change
    case SetProfile(_) => true
    case SetMethod(m, discovered) => m in Methods(d, discovered)
    case SetSubjectField(_) => d.authMethod == TLS
    case SetSubjectValue(_) => d.authMethod == TLS
    case SetConstraint(Dpop, _) => true
    case SetConstraint(Mtls, aliases) => !d.profile.Public? && (aliases || d.certificateBound == Some(true))
    case SetConstraint(Bearer, _) => d.profile.Oidc?
    case EditRest(next) => SameSecurity(d, next)
  }

  function Step(d: Draft, change: Change): Draft {
    match change
    case SetProfile(p) => ChangeProfile(d, p)
    case SetMethod(m, _) => ChangeMethod(d, m)
    case SetSubjectField(f) => d.(subjectField := f)
    case SetSubjectValue(text) => d.(subjectValue := text)
    case SetConstraint(c, _) => ChangeConstraint(d, c)
    case EditRest(next) => next
  }

  // ----- what every reachable draft satisfies -----

  predicate NeedsMtls(d: Draft) { UsesMtls(d.authMethod) || d.certificateBound == Some(true) }

  /** The security rules, each by itself. */
  predicate Rules(d: Draft) {
    && (d.profile.Public? <==> d.authMethod == NONE)
    && (d.authMethod == SECRET ==> d.profile.Oidc?)
    && d.authMethod in {SECRET, JWT, TLS, SELF_SIGNED, NONE}
    && !(d.dpopBound == Some(true) && d.certificateBound == Some(true))
    && (BearerSelected(d) ==> d.profile.Oidc?)
    && (d.profile.Public? ==> d.dpopBound == Some(true))
    && d.dpopBound.Some? && d.certificateBound.Some? && d.mtlsAliases.Some?
    && (d.subjectValue != "" ==> d.authMethod == TLS)
    && (NeedsMtls(d) ==> d.mtlsAliases == Some(true))
    && (d.mtlsAliases == Some(true) ==> NeedsMtls(d) || d.profile.Public?)
  }

  lemma {:induction false} OfferedFrom(candidates: seq<string>, d: Draft, discovered: seq<string>, m: string)
    requires m in Offered(candidates, d, discovered)
    ensures m in candidates
  {
    if candidates != [] && m != candidates[0] {
      OfferedFrom(candidates[1..], d, discovered, m);
    }
  }

  lemma MethodsFit(d: Draft, discovered: seq<string>, m: string)
    requires m in Methods(d, discovered)
    ensures if d.profile.Public? then m == NONE
            else m == JWT || m == TLS || m == SELF_SIGNED || (m == SECRET && d.profile.Oidc?)
  {
    if !d.profile.Public? {
      OfferedFrom((if d.profile.Oidc? then [SECRET] else []) + [JWT, TLS, SELF_SIGNED], d, discovered, m);
    }
  }

  lemma StepKeeps(d: Draft, change: Change)
    requires Rules(d) && Offers(d, change)
    ensures Rules(Step(d, change))
  {
    match change {
      case SetMethod(m, discovered) => MethodsFit(d, discovered, m);
      case _ =>
    }
  }

  ghost predicate Offerable(d: Draft, changes: seq<Change>)
    decreases |changes|
  {
    changes != [] ==> Offers(d, changes[0]) && Offerable(Step(d, changes[0]), changes[1..])
  }

  ghost function Run(d: Draft, changes: seq<Change>): Draft
    requires Offerable(d, changes)
    decreases |changes|
  {
    if changes == [] then d else Run(Step(d, changes[0]), changes[1..])
  }

  lemma {:induction false} RunKeeps(d: Draft, changes: seq<Change>)
    requires Rules(d) && Offerable(d, changes)
    ensures Rules(Run(d, changes))
    decreases |changes|
  {
    if changes != [] {
      StepKeeps(d, changes[0]);
      RunKeeps(Step(d, changes[0]), changes[1..]);
    }
  }

  /** Every draft the form can reach keeps the rules, and posts a certificate
      subject only for PKI mutual TLS (section 2.1.2 of RFC 8705). */
  lemma ReachableDrafts<J>(changes: seq<Change>, codec: Codec<J>)
    requires Offerable(EmptyDraft(), changes)
    ensures var d := Run(EmptyDraft(), changes);
            && Rules(d)
            && (DocumentFrom(d, codec).Some? && DocumentFrom(d, codec).value.subjects != map[] ==> d.authMethod == TLS)
  {
    RunKeeps(EmptyDraft(), changes);
  }

  /** Leaving the FAPI profile, or the form's other profiles for one another, posts no
      key material and no certificate subject of the old method. */
  lemma ProfileDropsKeys<J>(d: Draft, profile: Profile, codec: Codec<J>)
    requires profile != Fapi
    ensures var doc := DocumentFrom(ChangeProfile(d, profile), codec);
            doc.Some? && doc.value.jwks.None? && doc.value.jwksUri.None? && doc.value.subjects == map[]
  {
    TextLists.TrimIs("");
  }

  /** The aliases are on exactly when mutual TLS needs them. */
  predicate Exact(d: Draft) { d.mtlsAliases == Some(NeedsMtls(d)) }

  /** The changes that set the aliases. */
  predicate Decides(change: Change) { change.SetProfile? || change.SetMethod? || change.SetConstraint? }

  /** The one that sets them wrong: entering the public profile from a draft bound to
      certificates, where the old binding is read. */
  predicate LeavesOn(d: Draft, change: Change) {
    change == SetProfile(Public) && d.certificateBound == Some(true)
  }

  /** For every draft and change, whether they were exact before or not. */
  lemma AliasesExact(d: Draft, change: Change)
    requires Offers(d, change)
    ensures Decides(change) ==> (Exact(Step(d, change)) <==> !LeavesOn(d, change))
    ensures !Decides(change) ==> (Exact(Step(d, change)) <==> Exact(d))
  {
    if change.SetMethod? && !d.profile.Public? {
      MethodsFit(d, change.discovered, change.authMethod);
    }
  }

  lemma {:induction false} RunSplit(d: Draft, changes: seq<Change>, k: nat)
    requires Offerable(d, changes) && k <= |changes|
    ensures Offerable(d, changes[..k]) && Offerable(Run(d, changes[..k]), changes[k..])
    ensures Run(d, changes) == Run(Run(d, changes[..k]), changes[k..])
    decreases |changes|
  {
    if k == 0 {
      assert changes[..0] == [] && changes[0..] == changes;
    } else {
      RunSplit(Step(d, changes[0]), changes[1..], k - 1);
      assert changes[..k][1..] == changes[1..][..k - 1] && changes[1..][k - 1..] == changes[k..];
    }
  }

  lemma {:induction false} AliasesUntouched(d: Draft, changes: seq<Change>)
    requires Offerable(d, changes) && forall i :: 0 <= i < |changes| ==> !Decides(changes[i])
    ensures Exact(Run(d, changes)) <==> Exact(d)
    decreases |changes|
  {
    if changes != [] {
      AliasesExact(d, changes[0]);
      AliasesUntouched(Step(d, changes[0]), changes[1..]);
    }
  }

  /** Over whole runs: the last change that sets the aliases decides, and it sets them
      wrong only by entering the public profile from a draft bound to certificates. */
  lemma AliasesAfter(d: Draft, changes: seq<Change>, k: nat)
    requires Offerable(d, changes) && k < |changes| && Decides(changes[k])
    requires forall i :: k < i < |changes| ==> !Decides(changes[i])
    ensures Offerable(d, changes[..k])
    ensures Exact(Run(d, changes)) <==> !LeavesOn(Run(d, changes[..k]), changes[k])
  {
    RunSplit(d, changes, k);
    var at := Run(d, changes[..k]);
    assert changes[k..][0] == changes[k] && changes[k..][1..] == changes[k + 1..];
    AliasesExact(at, changes[k]);
    AliasesUntouched(Step(at, changes[k]), changes[k + 1..]);
  }

  /** Two offered changes reach the exception: bind to certificates, then go public. */
  lemma AliasesLeftOn()
    ensures var changes := [SetConstraint(Mtls, true), SetProfile(Public)];
            && Offerable(EmptyDraft(), changes)
            && Run(EmptyDraft(), changes).mtlsAliases == Some(true) && !NeedsMtls(Run(EmptyDraft(), changes))
  {
    var d1 := Step(EmptyDraft(), SetConstraint(Mtls, true));
    var d2 := Step(d1, SetProfile(Public));
    var changes := [SetConstraint(Mtls, true), SetProfile(Public)];
    assert changes[1..] == [SetProfile(Public)] && [SetProfile(Public)][1..] == [];
    assert Offerable(d1, [SetProfile(Public)]) && Run(d1, [SetProfile(Public)]) == d2;
  }

  // ----- what each control selects -----

  /** The sender constraint the form shows as selected. */
  function Selected(d: Draft): Constraint {
    if d.certificateBound == Some(true) then Mtls else if d.dpopBound == Some(false) then Bearer else Dpop
  }

  /** Selecting a constraint selects it, and touches nothing but the constraint and the
      aliases. */
  lemma ConstraintSelects(d: Draft, c: Constraint)
    ensures var t := Step(d, SetConstraint(c, true));
            && Selected(t) == c && t.dpopBound.Some? && t.certificateBound.Some?
            && t == d.(dpopBound := t.dpopBound, certificateBound := t.certificateBound, mtlsAliases := t.mtlsAliases)
  {
  }

  /** Selecting a profile selects it and its own method, drops what belonged to the old
      one, and keeps the constraint unless the profile has none like it. */
  lemma ProfileSelects(d: Draft, p: Profile)
    ensures var t := Step(d, SetProfile(p));
            && t.profile == p && t.subjectValue == ""
            && t.authMethod == (match p
                                case Fapi => "private_key_jwt"
                                case Oidc => "client_secret_basic"
                                case Public => "none")
            && (p.Fapi? ==> t.jwks == d.jwks && t.jwksUri == d.jwksUri) && (!p.Fapi? ==> t.jwks == "" && t.jwksUri == "")
            && Selected(t) == (if p.Public? || (p.Fapi? && Selected(d) == Bearer) then Dpop else Selected(d))
            && t == d.(profile := p, authMethod := t.authMethod, jwks := t.jwks, jwksUri := t.jwksUri, subjectValue := "",
                       certificateBound := t.certificateBound, dpopBound := t.dpopBound, mtlsAliases := t.mtlsAliases)
  {
  }

  /** Selecting a method selects it, and keeps the certificate subject exactly for PKI
      mutual TLS. */
  lemma MethodSelects(d: Draft, m: string, discovered: seq<string>)
    ensures var t := Step(d, SetMethod(m, discovered));
            && t.authMethod == m && t.subjectValue == (if m == "tls_client_auth" then d.subjectValue else "")
            && t == d.(authMethod := m, subjectValue := t.subjectValue, mtlsAliases := t.mtlsAliases)
  {
  }

  lemma {:induction false} OfferedAll(candidates: seq<string>, d: Draft, discovered: seq<string>, m: string)
    requires m in candidates && (m == d.authMethod || m == SECRET || m in discovered)
    ensures m in Offered(candidates, d, discovered)
  {
    if m != candidates[0] { OfferedAll(candidates[1..], d, discovered, m); }
  }

  /** Every method that fits is offered when discovery lists it or it is in use. */
  lemma MethodsOffered(d: Draft, discovered: seq<string>, m: string)
    requires if d.profile.Public? then m == NONE
             else (m in {JWT, TLS, SELF_SIGNED} && (m == d.authMethod || m in discovered)) || (m == SECRET && d.profile.Oidc?)
    ensures m in Methods(d, discovered)
  {
    if !d.profile.Public? {
      OfferedAll((if d.profile.Oidc? then [SECRET] else []) + [JWT, TLS, SELF_SIGNED], d, discovered, m);
    }
  }
}
