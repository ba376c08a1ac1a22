/** A client registration as a document and as the form's draft, and the way from
    one to the other and back. */
module ClientDraft {
  import opened Texts
  import opened TextLists

  datatype Profile = Fapi | Oidc | Public

  /** RFC 8705 certificate identities, in the order the console looks for them. */
  datatype SubjectField = SubjectDn | SanDns | SanUri | SanIp | SanEmail

  /** The optional members that are plain strings; `""` is absent in a draft. */
  datatype Alg =
    | UserinfoSigned | RequestObject | AuthorizationSigned | Backchannel | Introspection
    | IdTokenEncryptedAlg | IdTokenEncryptedEnc | UserinfoEncryptedAlg | UserinfoEncryptedEnc

  /** The members of `GET /clients/{id}` that the draft carries, and the one member
      it derives. `J` is a parsed JSON value. */
  datatype Document<+J> = Document(
    authorizationDetailsTypes: Option<seq<string>>, profile: Option<Profile>, authMethod: string,
    dpopBound: Option<bool>, mtlsAliases: Option<bool>, subjects: map<SubjectField, string>,
    clientName: string, applicationType: string,
    redirectUris: seq<string>, postLogoutRedirectUris: Option<seq<string>>,
    grantTypes: seq<string>, scope: string, idTokenAlg: string, algs: map<Alg, string>,
    responseModes: Option<seq<string>>, certificateBound: Option<bool>, subjectType: string,
    sectorIdentifierUri: Option<string>, jwksUri: Option<string>, jwks: Option<J>, status: string,
    rolesInIdToken: Option<bool>, managedGroupsClaim: Option<bool>, commandEndpoint: Option<string>,
    requirePushed: Option<bool>)

  datatype Draft = Draft(
    authorizationDetailsTypes: seq<string>, profile: Profile, authMethod: string,
    dpopBound: Option<bool>, mtlsAliases: Option<bool>, subjectField: SubjectField, subjectValue: string,
    clientName: string, applicationType: string,
    redirectUris: string, postLogoutRedirectUris: string,
    grantTypes: seq<string>, scope: string, idTokenAlg: string, algs: map<Alg, string>,
    responseModes: Option<seq<string>>, certificateBound: Option<bool>, subjectType: string,
    sectorIdentifierUri: string, jwksUri: string, jwks: string, status: string,
    rolesInIdToken: bool, managedGroupsClaim: bool, commandEndpoint: string)

  ghost predicate Lawful<J(!new)>(codec: Codec<J>) {
    forall v: J :: codec.parse(codec.stringify(v)) == Some(v) && Trim(codec.stringify(v)) != ""
  }

  predicate IsTrue(o: Option<bool>) { o.Some? && o.value }

  // ----- draftOf -----

  function FirstSubject(subjects: map<SubjectField, string>): SubjectField {
    if SubjectDn in subjects then SubjectDn
    else if SanDns in subjects then SanDns
    else if SanUri in subjects then SanUri
    else if SanIp in subjects then SanIp
    else if SanEmail in subjects then SanEmail
    else SubjectDn
  }

  function SubjectValue(subjects: map<SubjectField, string>): string {
    var field := FirstSubject(subjects);
    if field in subjects then subjects[field] else ""
  }

  function AllAlgs(algs: map<Alg, string>): map<Alg, string> {
    map a: Alg | true :: if a in algs then algs[a] else ""
  }

  function DraftOf<J>(doc: Document<J>, codec: Codec<J>): Draft {
    Draft(
      authorizationDetailsTypes := OrElse(doc.authorizationDetailsTypes, []),
      profile := OrElse(doc.profile, Fapi),
      authMethod := doc.authMethod,
      dpopBound := doc.dpopBound,
      mtlsAliases := doc.mtlsAliases,
      subjectField := FirstSubject(doc.subjects),
      subjectValue := SubjectValue(doc.subjects),
      clientName := doc.clientName,
      applicationType := doc.applicationType,
      redirectUris := LinesOf(doc.redirectUris),
      postLogoutRedirectUris := LinesOf(OrElse(doc.postLogoutRedirectUris, [])),
      grantTypes := doc.grantTypes,
      scope := doc.scope,
      idTokenAlg := doc.idTokenAlg,
      algs := AllAlgs(doc.algs),
      responseModes := doc.responseModes,
      certificateBound := doc.certificateBound,
      subjectType := doc.subjectType,
      sectorIdentifierUri := OrElse(doc.sectorIdentifierUri, ""),
      jwksUri := OrElse(doc.jwksUri, ""),
      jwks := if doc.jwks.Some? then codec.stringify(doc.jwks.value) else "",
      status := doc.status,
      rolesInIdToken := IsTrue(doc.rolesInIdToken),
      managedGroupsClaim := IsTrue(doc.managedGroupsClaim),
      commandEndpoint := OrElse(doc.commandEndpoint, ""))
  }

  // ----- documentFrom -----

  function Spelled(text: string): Option<string> {
    if Trim(text) != "" then Some(Trim(text)) else None
  }

  function SubjectsFrom(field: SubjectField, value: string): map<SubjectField, string> {
    if value != "" then map[field := value] else map[]
  }

  function PresentAlgs(algs: map<Alg, string>): map<Alg, string> {
    map a | a in algs && algs[a] != "" :: algs[a]
  }

  /** The posted document, or none when the key set box does not hold JSON. */
  function DocumentFrom<J>(d: Draft, codec: Codec<J>): Option<Document<J>> {
    var keys := d.authMethod != "none";
    var jwks := if keys && Trim(d.jwks) != "" then codec.parse(d.jwks) else None;
    if keys && Trim(d.jwks) != "" && jwks.None? then None
    else Some(Document(
      authorizationDetailsTypes := Some(d.authorizationDetailsTypes),
      profile := Some(d.profile),
      authMethod := d.authMethod,
      dpopBound := d.dpopBound,
      mtlsAliases := d.mtlsAliases,
      subjects := SubjectsFrom(d.subjectField, d.subjectValue),
      clientName := d.clientName,
      applicationType := d.applicationType,
      redirectUris := ListFrom(d.redirectUris),
      postLogoutRedirectUris := Some(ListFrom(d.postLogoutRedirectUris)),
      grantTypes := d.grantTypes,
      scope := d.scope,
      idTokenAlg := d.idTokenAlg,
      algs := PresentAlgs(d.algs),
      responseModes := d.responseModes,
      certificateBound := d.certificateBound,
      subjectType := d.subjectType,
      sectorIdentifierUri := Spelled(d.sectorIdentifierUri),
      jwksUri := if keys then Spelled(d.jwksUri) else None,
      jwks := jwks,
      status := d.status,
      rolesInIdToken := Some(d.rolesInIdToken),
      managedGroupsClaim := Some(d.managedGroupsClaim),
      commandEndpoint := Spelled(d.commandEndpoint),
      requirePushed := Some(d.profile == Fapi)))
  }

  /** The loop over the optional algorithm members. */
  method CollectAlgs(algs: map<Alg, string>) returns (r: map<Alg, string>)
    ensures r == PresentAlgs(algs)
  {
    r := map[];
    var fields := algs.Keys;
    while fields != {}
      invariant fields <= algs.Keys
      invariant r == map a | a in algs && a !in fields && algs[a] != "" :: algs[a]
      decreases |fields|
    {
      var field :| field in fields;
      if algs[field] != "" { r := r[field := algs[field]]; }
      fields := fields - {field};
    }
  }

  /** The optional security members, each set only when the draft has it. */
  method WithSecurity<J>(d: Draft, before: Document<J>) returns (doc: Document<J>)
    requires before.dpopBound.None? && before.mtlsAliases.None? && before.subjects == map[]
    requires before.responseModes.None? && before.certificateBound.None?
    ensures doc == before.(dpopBound := d.dpopBound, mtlsAliases := d.mtlsAliases,
                           subjects := SubjectsFrom(d.subjectField, d.subjectValue),
                           responseModes := d.responseModes, certificateBound := d.certificateBound)
  {
    doc := before;
    if d.dpopBound.Some? { doc := doc.(dpopBound := d.dpopBound); }
    if d.mtlsAliases.Some? { doc := doc.(mtlsAliases := d.mtlsAliases); }
    if d.subjectValue != "" { doc := doc.(subjects := map[d.subjectField := d.subjectValue]); }
    if d.responseModes.Some? { doc := doc.(responseModes := d.responseModes); }
    if d.certificateBound.Some? { doc := doc.(certificateBound := d.certificateBound); }
  }

  /** The key sources; a box that does not hold JSON refuses the whole document. */
  method WithKeys<J>(d: Draft, before: Document<J>, codec: Codec<J>) returns (r: Option<Document<J>>)
    requires before.jwks.None? && before.jwksUri.None?
    ensures r == if d.authMethod == "none" then Some(before)
                 else if Trim(d.jwks) != "" && codec.parse(d.jwks).None? then None
                 else Some(before.(jwks := if Trim(d.jwks) != "" then codec.parse(d.jwks) else None,
                                   jwksUri := Spelled(d.jwksUri)))
  {
    var doc := before;
    if d.authMethod != "none" && Trim(d.jwks) != "" {
      var parsed := codec.parse(d.jwks);
      if parsed.None? { return None; }
      doc := doc.(jwks := parsed);
    }
    if d.authMethod != "none" && Trim(d.jwksUri) != "" { doc := doc.(jwksUri := Some(Trim(d.jwksUri))); }
    r := Some(doc);
  }

  /** The document assembled member by member, as the console does. */
  method BuildDocument<J>(d: Draft, codec: Codec<J>) returns (r: Option<Document<J>>)
    ensures r == DocumentFrom(d, codec)
  {
    hide Trim;
    hide ListFrom;
    hide PresentAlgs;
    hide SubjectsFrom;
    var algs := CollectAlgs(d.algs);
    var doc: Document<J> := Document(
      Some(d.authorizationDetailsTypes), Some(d.profile), d.authMethod, None, None, map[],
      d.clientName, d.applicationType, ListFrom(d.redirectUris), Some(ListFrom(d.postLogoutRedirectUris)),
      d.grantTypes, d.scope, d.idTokenAlg, algs, None, None, d.subjectType, None, None, None, d.status,
      Some(d.rolesInIdToken), Some(d.managedGroupsClaim), None, Some(d.profile == Fapi));
    doc := WithSecurity(d, doc);
    if Trim(d.sectorIdentifierUri) != "" { doc := doc.(sectorIdentifierUri := Some(Trim(d.sectorIdentifierUri))); }
    if Trim(d.commandEndpoint) != "" { doc := doc.(commandEndpoint := Some(Trim(d.commandEndpoint))); }
    r := WithKeys(d, doc, codec);
  }

  // ----- what survives the draft -----

  /** A string member the draft can hold: absent, or trimmed and not blank. */
  predicate Carried(o: Option<string>) {
    o.Some? ==> Trimmed(o.value) && o.value != ""
  }

  /** The documents the draft can represent: the members it never leaves out are
      there, list entries are clean, optional strings are not blank, there is at
      most one certificate subject, and no keys without an authentication method. */
  predicate Representable<J>(doc: Document<J>) {
    && doc.authorizationDetailsTypes.Some? && doc.profile.Some?
    && doc.rolesInIdToken.Some? && doc.managedGroupsClaim.Some?
    && AllClean(doc.redirectUris)
    && doc.postLogoutRedirectUris.Some? && AllClean(doc.postLogoutRedirectUris.value)
    && OneSubject(doc.subjects) && NoBlankAlg(doc.algs)
    && Carried(doc.sectorIdentifierUri) && Carried(doc.commandEndpoint) && Carried(doc.jwksUri)
    && (doc.authMethod == "none" ==> doc.jwks.None? && doc.jwksUri.None?)
  }

  /** The same up to the derived member. */
  predicate Agrees<J(==)>(a: Document<J>, b: Document<J>) {
    a.(requirePushed := None) == b.(requirePushed := None)
  }

  lemma SpelledIs(o: Option<string>)
    ensures Spelled(OrElse(o, "")) == o <==> Carried(o)
  {
    TrimIs(OrElse(o, ""));
  }

  lemma SpelledCarried(text: string)
    ensures Carried(Spelled(text))
  {
    TrimIs(text);
  }

  /** At most one subject, and not a blank one. */
  predicate OneSubject(subjects: map<SubjectField, string>) {
    && (forall f, g :: f in subjects && g in subjects ==> f == g)
    && (forall f :: f in subjects ==> subjects[f] != "")
  }

  /** The draft holds the first subject, and posts it unless it is blank. */
  lemma SubjectsIs(subjects: map<SubjectField, string>)
    ensures SubjectsFrom(FirstSubject(subjects), SubjectValue(subjects)) == subjects <==> OneSubject(subjects)
  {
    var field := FirstSubject(subjects);
    FirstFound(subjects);
    if OneSubject(subjects) {
      assert forall f :: f in subjects ==> f == field;
    }
    if field in subjects {
      assert map[field := subjects[field]].Keys == {field};
    }
  }

  lemma FirstFound(subjects: map<SubjectField, string>)
    ensures FirstSubject(subjects) in subjects <==> subjects != map[]
  {
    if FirstSubject(subjects) !in subjects {
      forall f: SubjectField ensures f !in subjects {
        match f { case SubjectDn => case SanDns => case SanUri => case SanIp => case SanEmail => }
      }
    }
  }

  predicate NoBlankAlg(algs: map<Alg, string>) {
    forall a :: a in algs ==> algs[a] != ""
  }

  lemma AlgsIs(algs: map<Alg, string>)
    ensures PresentAlgs(AllAlgs(algs)) == algs <==> NoBlankAlg(algs)
  {
    var out := PresentAlgs(AllAlgs(algs));
    if NoBlankAlg(algs) {
      assert out.Keys == algs.Keys;
    } else {
      var a :| a in algs && algs[a] == "";
      assert a !in out;
    }
  }

  lemma KeysIs<J(!new)>(doc: Document<J>, codec: Codec<J>)
    requires Lawful(codec)
    ensures Reposted(doc, codec).Some?
    ensures var out := Reposted(doc, codec).value;
            && (out.jwks == doc.jwks <==> doc.authMethod == "none" ==> doc.jwks.None?)
            && (out.jwksUri == doc.jwksUri <==>
                  Carried(doc.jwksUri) && (doc.authMethod == "none" ==> doc.jwksUri.None?))
  {
    hide Trim;
    TrimIs("");
    SpelledIs(doc.jwksUri);
    if doc.jwks.Some? { assert codec.parse(codec.stringify(doc.jwks.value)) == doc.jwks; }
  }

  /** What is posted after reading a document. */
  function Reposted<J>(doc: Document<J>, codec: Codec<J>): Option<Document<J>> {
    DocumentFrom(DraftOf(doc, codec), codec)
  }

  lemma ListsIs<J(!new)>(doc: Document<J>, codec: Codec<J>)
    requires Reposted(doc, codec).Some?
    ensures var out := Reposted(doc, codec).value;
            && (out.redirectUris == doc.redirectUris <==> AllClean(doc.redirectUris))
            && (out.postLogoutRedirectUris == doc.postLogoutRedirectUris <==>
                  doc.postLogoutRedirectUris.Some? && AllClean(doc.postLogoutRedirectUris.value))
            && (out.subjects == doc.subjects <==> OneSubject(doc.subjects))
            && (out.algs == doc.algs <==> NoBlankAlg(doc.algs))
            && (out.sectorIdentifierUri == doc.sectorIdentifierUri <==> Carried(doc.sectorIdentifierUri))
            && (out.commandEndpoint == doc.commandEndpoint <==> Carried(doc.commandEndpoint))
  {
    hide Spelled;
    hide ListFrom;
    hide LinesOf;
    hide AllClean;
    hide SubjectsFrom;
    hide OneSubject;
    hide PresentAlgs;
    hide NoBlankAlg;
    hide Carried;
    ListRoundTrip(doc.redirectUris);
    ListRoundTrip(OrElse(doc.postLogoutRedirectUris, []));
    SubjectsIs(doc.subjects);
    AlgsIs(doc.algs);
    SpelledIs(doc.sectorIdentifierUri);
    SpelledIs(doc.commandEndpoint);
  }

  /** The members that are copied, and those that are filled in when absent. */
  lemma FlagsIs<J(!new)>(doc: Document<J>, codec: Codec<J>)
    requires Reposted(doc, codec).Some?
    ensures var out := Reposted(doc, codec).value;
            && out == doc.(authorizationDetailsTypes := out.authorizationDetailsTypes, profile := out.profile,
                           subjects := out.subjects, redirectUris := out.redirectUris,
                           postLogoutRedirectUris := out.postLogoutRedirectUris, algs := out.algs,
                           sectorIdentifierUri := out.sectorIdentifierUri, jwksUri := out.jwksUri,
                           jwks := out.jwks, rolesInIdToken := out.rolesInIdToken,
                           managedGroupsClaim := out.managedGroupsClaim,
                           commandEndpoint := out.commandEndpoint, requirePushed := out.requirePushed)
            && (out.authorizationDetailsTypes == doc.authorizationDetailsTypes <==> doc.authorizationDetailsTypes.Some?)
            && (out.profile == doc.profile <==> doc.profile.Some?)
            && (out.rolesInIdToken == doc.rolesInIdToken <==> doc.rolesInIdToken.Some?)
            && (out.managedGroupsClaim == doc.managedGroupsClaim <==> doc.managedGroupsClaim.Some?)
  {
    hide Trim;
    hide ListFrom;
    hide SubjectsFrom;
    hide PresentAlgs;
  }

  /** A document survives reading and posting, member by member and absent members
      included, exactly when the draft can represent it. Reading it never fails to
      post, and algorithm names are kept whether the console knows them or not. */
  lemma ServerRoundTrip<J(!new)>(doc: Document<J>, codec: Codec<J>)
    requires Lawful(codec)
    ensures Reposted(doc, codec).Some?
    ensures Agrees(Reposted(doc, codec).value, doc) <==> Representable(doc)
  {
    KeysIs(doc, codec);
    ListsIs(doc, codec);
    FlagsIs(doc, codec);
    hide Reposted;
    hide AllClean;
    hide OneSubject;
    hide NoBlankAlg;
    hide Carried;
  }

  /** What an absent member comes back as: five are posted with their defaults, the
      three optional binding members and the response modes stay absent. */
  lemma AbsentMembers<J(!new)>(doc: Document<J>, codec: Codec<J>)
    requires Lawful(codec)
    ensures Reposted(doc, codec).Some?
    ensures var out := Reposted(doc, codec).value;
            && (doc.profile.None? ==> out.profile == Some(Fapi))
            && (doc.authorizationDetailsTypes.None? ==> out.authorizationDetailsTypes == Some([]))
            && (doc.postLogoutRedirectUris.None? ==> out.postLogoutRedirectUris == Some([]))
            && (doc.rolesInIdToken.None? ==> out.rolesInIdToken == Some(false))
            && (doc.managedGroupsClaim.None? ==> out.managedGroupsClaim == Some(false))
            && out.dpopBound == doc.dpopBound && out.mtlsAliases == doc.mtlsAliases
            && out.certificateBound == doc.certificateBound && out.responseModes == doc.responseModes
  {
    KeysIs(doc, codec);
    ListRoundTrip([]);
  }

  /** Everything the console posts is representable. */
  lemma PostedIsRepresentable<J(!new)>(d: Draft, codec: Codec<J>)
    requires DocumentFrom(d, codec).Some?
    ensures Representable(DocumentFrom(d, codec).value)
  {
    ListIsClean(d.redirectUris);
    ListIsClean(d.postLogoutRedirectUris);
    SpelledCarried(d.sectorIdentifierUri);
    SpelledCarried(d.commandEndpoint);
    SpelledCarried(d.jwksUri);
  }

  /** Posting, reading back and posting again posts the same document, for every
      draft whose document can be built. */
  lemma DraftRoundTrip<J(!new)>(d: Draft, codec: Codec<J>)
    requires Lawful(codec) && DocumentFrom(d, codec).Some?
    ensures Reposted(DocumentFrom(d, codec).value, codec) == DocumentFrom(d, codec)
  {
    var doc := DocumentFrom(d, codec).value;
    PostedIsRepresentable(d, codec);
    ServerRoundTrip(doc, codec);
  }

  // ----- the derived member, and what the form shows -----

  /** Pushed requests are required exactly under the FAPI profile, which is also what a
      document without one is taken for. */
  lemma PushedIs<J(!new)>(d: Draft, doc: Document<J>, codec: Codec<J>)
    ensures DocumentFrom(d, codec).Some? ==> DocumentFrom(d, codec).value.requirePushed == Some(d.profile == Fapi)
    ensures Reposted(doc, codec).Some? ==>
              Reposted(doc, codec).value.requirePushed == Some(doc.profile == None || doc.profile == Some(Fapi))
  {
  }

  /** A document survives in full exactly when it is representable and that member is
      what the profile says. */
  lemma WholeRoundTrip<J(!new)>(doc: Document<J>, codec: Codec<J>)
    requires Lawful(codec)
    ensures Reposted(doc, codec) == Some(doc) <==>
            Representable(doc) && doc.requirePushed == Some(doc.profile == Some(Fapi))
  {
    hide Representable;
    hide Reposted;
    ServerRoundTrip(doc, codec);
    PushedIs(DraftOf(doc, codec), doc, codec);
    var out := Reposted(doc, codec).value;
    ProfilePresent(doc);
    if out == doc { assert Agrees(out, doc); }
    if Agrees(out, doc) && out.requirePushed == doc.requirePushed {
      assert out == out.(requirePushed := None).(requirePushed := doc.requirePushed);
      assert doc == doc.(requirePushed := None).(requirePushed := doc.requirePushed);
    }
  }

  lemma ProfilePresent<J>(doc: Document<J>)
    ensures Representable(doc) ==> doc.profile.Some?
  {
  }

  /** Every box starts out showing its own member. */
  lemma DraftShows<J>(doc: Document<J>, codec: Codec<J>)
    ensures var d := DraftOf(doc, codec);
            && d.clientName == doc.clientName && d.applicationType == doc.applicationType && d.scope == doc.scope
            && d.authMethod == doc.authMethod && d.grantTypes == doc.grantTypes && d.idTokenAlg == doc.idTokenAlg
            && d.subjectType == doc.subjectType && d.status == doc.status && d.responseModes == doc.responseModes
            && d.dpopBound == doc.dpopBound && d.certificateBound == doc.certificateBound
            && d.mtlsAliases == doc.mtlsAliases
            && (doc.profile.Some? ==> d.profile == doc.profile.value)
            && (forall a: Alg :: a in d.algs && d.algs[a] == if a in doc.algs then doc.algs[a] else "")
            && (doc.jwksUri.Some? ==> d.jwksUri == doc.jwksUri.value)
            && (doc.sectorIdentifierUri.Some? ==> d.sectorIdentifierUri == doc.sectorIdentifierUri.value)
            && (doc.commandEndpoint.Some? ==> d.commandEndpoint == doc.commandEndpoint.value)
            && (doc.subjects != map[] ==> d.subjectField in doc.subjects && doc.subjects[d.subjectField] == d.subjectValue)
  {
    if doc.subjects != map[] {
      var f :| f in doc.subjects;
      match f {
        case SubjectDn => assert SubjectDn in doc.subjects;
        case SanDns => assert SanDns in doc.subjects;
        case SanUri => assert SanUri in doc.subjects;
        case SanIp => assert SanIp in doc.subjects;
        case SanEmail => assert SanEmail in doc.subjects;
      }
    }
  }

  /** Optional strings are posted without the whitespace around them, and not at all
      when there is nothing else. */
  lemma PostedSpelled<J>(d: Draft, codec: Codec<J>, a: string, s: string, b: string)
    requires DocumentFrom(d, codec).Some? && Blank(a) && Blank(b) && Trimmed(s)
    ensures var doc, posted := DocumentFrom(d, codec).value, if s == "" then None else Some(s);
            && (d.sectorIdentifierUri == a + s + b ==> doc.sectorIdentifierUri == posted)
            && (d.commandEndpoint == a + s + b ==> doc.commandEndpoint == posted)
            && (d.jwksUri == a + s + b && d.authMethod != "none" ==> doc.jwksUri == posted)
  {
    TrimPadded(a, s, b);
  }
}
