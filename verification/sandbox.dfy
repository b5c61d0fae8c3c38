/** The project sandbox: the preview document built around the cleaned
    code, the scripted audit, the GitHub deploy that the audit gates, and
    the default repository and download names. Network replies are inputs;
    the calls the deploy makes are recorded in order. */
module Sandbox {
  import opened Basics
  import FencedCode
  import opened Digits

  // ---------------------------------------------------------------------
  // The preview document

  /** The template literal up to the cleaned code, line by line. */
  const Head1: string := "    <!DOCTYPE html>"
  const Head2: string := "    <html lang=\"ar\" dir=\"rtl\">"
  const Head3: string := "    <head>"
  const Head4: string := "      <meta charset=\"UTF-8\">"
  const Head5: string := "      <meta name=\"viewport\" content=\"width=device-width, initial-scale=1.0\">"
  const Head6: string := "      <script src=\"https://cdn.tailwindcss.com\"></script>"
  const Head7: string := "      <link href=\"https://fonts.googleapis.com/css2?family=Noto+Kufi+Arabic:wght@400;700&display=swap\" rel=\"stylesheet\">"
  const Head8: string := "      <style>"
  const Head9: string := "        body { font-family: 'Noto Kufi Arabic', sans-serif; margin: 0; padding: 0; background: #fff; font-size: 11px; }"
  const Head10: string := "        ::-webkit-scrollbar { width: 4px; }"
  const Head11: string := "        ::-webkit-scrollbar-thumb { background: #d4af37; }"
  const Head12: string := "        .km-preview-root { min-height: 100vh; }"
  const Head13: string := "      </style>"
  const Head14: string := "    </head>"
  const Head15: string := "    <body>"
  const Head16: string := "      <div class=\"km-preview-root\">"
  const Head17: string := "        "

  const DocPrefix: string := "\n" + Head1 + "\n" + Head2 + "\n" + Head3 + "\n" + Head4 + "\n" + Head5 + "\n" + Head6 + "\n" + Head7 + "\n" + Head8 + "\n" + Head9 + "\n" + Head10 + "\n" + Head11 + "\n" + Head12 + "\n" + Head13 + "\n" + Head14 + "\n" + Head15 + "\n" + Head16 + "\n" + Head17

  const DocSuffix: string := "\n      </div>\n    </body>\n    </html>\n  "

  /** A document template: the text before and after the embedded code. */
  datatype Template = Template(head: string, tail: string)

  /** The sandbox's template literal. */
  const Preview: Template := Template(DocPrefix, DocSuffix)

  /** The `srcDoc` shown in the iframe, downloaded and uploaded:
      `SrcDoc(Preview, code)`. The template is a parameter so that the
      properties below hold for the literal without unfolding it. */
  function SrcDoc(t: Template, code: string): (doc: string)
    ensures |doc| == |t.head| + |FencedCode.CleanCode(code)| + |t.tail|
  {
    t.head + FencedCode.CleanCode(code) + t.tail
  }

  /** The part of a document between the template's head and tail. */
  function EmbeddedCode(t: Template, doc: string): string
    requires |doc| >= |t.head| + |t.tail|
  {
    doc[|t.head|..|doc| - |t.tail|]
  }

  /** The document carries the cleaned code verbatim between the template's
      head and tail, so two codes give the same document exactly when they
      clean to the same text. */
  lemma SrcDocEmbedsCleanCode(t: Template, a: string, b: string)
    ensures SrcDoc(t, a)[..|t.head|] == t.head
    ensures SrcDoc(t, a)[|SrcDoc(t, a)| - |t.tail|..] == t.tail
    ensures EmbeddedCode(t, SrcDoc(t, a)) == FencedCode.CleanCode(a)
    ensures SrcDoc(t, a) == SrcDoc(t, b) <==> FencedCode.CleanCode(a) == FencedCode.CleanCode(b)
  {
    var da, db := SrcDoc(t, a), SrcDoc(t, b);
    assert da[|t.head|..|da| - |t.tail|] == FencedCode.CleanCode(a);
    assert db[|t.head|..|db| - |t.tail|] == FencedCode.CleanCode(b);
  }

  // ---------------------------------------------------------------------
  // Default names

  const RepoPrefix: string := "chatbank-sovereign-app-"

  /** `'chatbank-sovereign-app-' + Date.now().toString().slice(-4)`. */
  function DefaultRepoName(now: nat): (name: string)
    ensures |name| == |RepoPrefix| + (if now >= 1000 then 4 else |NatToString(now)|)
    ensures name[..|RepoPrefix|] == RepoPrefix
  {
    NatToStringLength(now);
    RepoPrefix + LastN(NatToString(now), 4)
  }

  /** The download is named after the repository. */
  function DownloadName(repoName: string): (name: string)
    ensures |name| == |repoName| + 5 && name[..|repoName|] == repoName
    ensures name[|repoName|..] == ".html"
  {
    repoName + ".html"
  }

  /** The default repository name ends in the clock reading modulo 10000. */
  lemma RepoNameSuffix(now: nat)
    ensures var name := DefaultRepoName(now);
      ParseDecimal(name[|RepoPrefix|..]) == now % 10000
  {
    DropPrefix(RepoPrefix, LastN(NatToString(now), 4));
    LastDigits(now, 4);
    Pow10Four();
  }

  // ---------------------------------------------------------------------
  // The audit

  datatype Stats = Stats(iq: int, vite: int, react19: int, security: int)

  /** A step of the scripted audit: its log line and its score. */
  datatype Check = Check(msg: string, score: int)

  const AuditOpening: seq<string> := ["بدء فحص شاتبنك السيادي...", "تحليل بنية المستودع..."]

  const Checks: seq<Check> := [
    Check("التحقق من بادئة km- الفريدة...", 25),
    Check("فحص توافق ChatBank Hyper-logic...", 25),
    Check("اختبار تجاوب الواجهة (Mobile Ready)...", 25),
    Check("تشفير المخرجات في بنك المعلومات...", 25)
  ]

  const AuditDone: string := "✅ اكتمل الفحص: مستودع شاتبنك جاهز للنشر."

  datatype Audit = Audit(isAuditing: bool, passed: bool, logs: seq<string>, stats: Stats)

  const InitialAudit: Audit := Audit(false, false, [], Stats(0, 0, 0, 0))

  /** One check applied: its message logged, its score added to `iq`, 25 to the rest. */
  function ApplyCheck(a: Audit, c: Check): Audit {
    a.(logs := a.logs + [c.msg],
       stats := Stats(a.stats.iq + c.score, a.stats.vite + 25, a.stats.react19 + 25, a.stats.security + 25))
  }

  function ApplyChecks(a: Audit, cs: seq<Check>): (r: Audit)
    ensures r.passed == a.passed && r.isAuditing == a.isAuditing
    ensures |r.logs| == |a.logs| + |cs|
    decreases |cs|
  {
    if |cs| == 0 then a else ApplyChecks(ApplyCheck(a, cs[0]), cs[1..])
  }

  function Sum(cs: seq<Check>): int
    decreases |cs|
  {
    if |cs| == 0 then 0 else cs[0].score + Sum(cs[1..])
  }

  /** Applying checks logs their messages in order and adds their scores. */
  lemma {:induction false} ApplyChecksEffect(a: Audit, cs: seq<Check>)
    ensures ApplyChecks(a, cs).logs == a.logs + seq(|cs|, i requires 0 <= i < |cs| => cs[i].msg)
    ensures ApplyChecks(a, cs).stats == Stats(a.stats.iq + Sum(cs), a.stats.vite + 25 * |cs|,
                                              a.stats.react19 + 25 * |cs|, a.stats.security + 25 * |cs|)
    decreases |cs|
  {
    if |cs| > 0 {
      ApplyChecksEffect(ApplyCheck(a, cs[0]), cs[1..]);
      var tail := seq(|cs| - 1, i requires 0 <= i < |cs| - 1 => cs[1..][i].msg);
      assert seq(|cs|, i requires 0 <= i < |cs| => cs[i].msg) == [cs[0].msg] + tail;
    }
  }

  /** `runSovereignAudit` run to its end: the log restarts with the two
      opening lines, every check is logged, the scores accumulate onto the
      previous statistics, and the audit ends passed. */
  function RunAudit(a: Audit): (r: Audit)
    ensures r.passed && !r.isAuditing
    ensures |r.logs| == 7 && r.logs[..2] == AuditOpening && r.logs[6] == AuditDone
  {
    var checked := ApplyChecks(Audit(true, a.passed, AuditOpening, a.stats), Checks);
    checked.(passed := true, isAuditing := false, logs := checked.logs + [AuditDone])
  }

  /** Every statistic rises by exactly 100 per run; the statistics are never
      reset, so a second run reaches 200. */
  lemma AuditAddsHundred(a: Audit)
    ensures RunAudit(a).stats == Stats(a.stats.iq + 100, a.stats.vite + 100,
                                       a.stats.react19 + 100, a.stats.security + 100)
    ensures RunAudit(a).logs[2..6] == [Checks[0].msg, Checks[1].msg, Checks[2].msg, Checks[3].msg]
  {
    ApplyChecksEffect(Audit(true, a.passed, AuditOpening, a.stats), Checks);
  }

  lemma AuditFromScratch()
    ensures RunAudit(InitialAudit).stats == Stats(100, 100, 100, 100)
    ensures RunAudit(RunAudit(InitialAudit)).stats == Stats(200, 200, 200, 200)
  {
    AuditAddsHundred(InitialAudit);
    AuditAddsHundred(RunAudit(InitialAudit));
  }

  // ---------------------------------------------------------------------
  // The deploy

  const TokenKey: string := "km_gh_token"
  const CreateFailedMsg: string := "فشل إنشاء مستودع شاتبنك. تأكد من صحة التوكن."
  const UploadFailedMsg: string := "فشل رفع ملف شاتبنك السيادي."
  const DeployedMsg: string := "تم النشر في بنك المستودعات: "

  /** A fetch outcome: it threw with a message, or a response arrived. */
  datatype Reply = Threw(message: string) | Response(ok: bool, status: int)

  /** The user lookup: the fetch or its JSON threw, or an object arrived
      with or without a `login`. */
  datatype UserReply = UserThrew(message: string) | UserJson(login: Option<string>)

  /** The requests the deploy makes, in order. `PutIndex` carries the
      document whose UTF-8 bytes are uploaded in base64. */
  datatype GithubCall =
    | CreateRepo(token: string, name: string)
    | GetUser(token: string)
    | PutIndex(token: string, owner: string, repo: string, document: string)

  datatype StatusKind = Success | Failure
  datatype DeployStatus = DeployStatus(kind: StatusKind, msg: string)

  datatype SandboxState = SandboxState(
    audit: Audit,
    isDeploying: bool,
    deployStatus: Option<DeployStatus>,
    ghToken: string,
    repoName: string,
    storage: map<string, string>,
    calls: seq<GithubCall>)

  /** The sandbox as it opens: the saved token (or none) and a fresh repository name. */
  function Open(storage: map<string, string>, now: nat): (s: SandboxState)
    ensures s.ghToken == (if TokenKey in storage then storage[TokenKey] else "")
    ensures !s.audit.passed && s.calls == [] && s.deployStatus.None?
    ensures |s.repoName| > |RepoPrefix| && s.repoName[..|RepoPrefix|] == RepoPrefix
    ensures ParseDecimal(s.repoName[|RepoPrefix|..]) == now % 10000
  {
    RepoNameSuffix(now);
    SandboxState(InitialAudit, false, None,
                 if TokenKey in storage then storage[TokenKey] else "",
                 DefaultRepoName(now), storage, [])
  }

  /** A template literal renders an absent login as "undefined". */
  function LoginText(login: Option<string>): string {
    match login
    case Some(l) => l
    case None => "undefined"
  }

  /** The create call's outcome lets the deploy go on: a success, or 422
      (the repository already exists). */
  predicate CreateAccepted(r: Reply) {
    r.Response? && (r.ok || r.status == 422)
  }

  /** The try block from the create call on, as the status it ends with
      and the calls it made. */
  function DeployAttempt(token: string, repo: string, doc: string,
                         create: Reply, user: UserReply, upload: Reply): (r: (DeployStatus, seq<GithubCall>))
    ensures |r.1| >= 1 && r.1[0] == CreateRepo(token, repo)
    ensures r.0.kind == Success <==> CreateAccepted(create) && user.UserJson? && upload.Response? && upload.ok
  {
    var calls := [CreateRepo(token, repo)];
    if create.Threw? then (DeployStatus(Failure, create.message), calls)
    else if !create.ok && create.status != 422 then (DeployStatus(Failure, CreateFailedMsg), calls)
    else
      var calls := calls + [GetUser(token)];
      match user
      case UserThrew(m) => (DeployStatus(Failure, m), calls)
      case UserJson(login) =>
        var owner := LoginText(login);
        var calls := calls + [PutIndex(token, owner, repo, doc)];
        if upload.Threw? then (DeployStatus(Failure, upload.message), calls)
        else if !upload.ok then (DeployStatus(Failure, UploadFailedMsg), calls)
        else (DeployStatus(Success, DeployedMsg + owner + "/" + repo), calls)
  }

  /** `handleGithubDeploy` run to its end, `doc` being the `srcDoc` of the
      render it was called from (`SrcDoc(Preview, code)`). Without a
      passed audit it only runs the audit; with an empty token or
      repository name it does nothing; otherwise it saves the token and
      makes the calls. */
  function HandleGithubDeploy(s: SandboxState, doc: string, create: Reply, user: UserReply, upload: Reply): (s': SandboxState)
    ensures !s.audit.passed ==> s' == s.(audit := RunAudit(s.audit))
    ensures s.audit.passed && (s.ghToken == "" || s.repoName == "") ==> s' == s
  {
    if !s.audit.passed then s.(audit := RunAudit(s.audit))
    else if s.ghToken == "" || s.repoName == "" then s
    else
      var r := DeployAttempt(s.ghToken, s.repoName, doc, create, user, upload);
      s.(isDeploying := false,
         deployStatus := Some(r.0),
         storage := s.storage[TokenKey := s.ghToken],
         calls := s.calls + r.1)
  }

  /** The audit gates the deploy: the first press never touches the network
      or storage, and a second press with a token and a name deploys. */
  lemma AuditGatesDeploy(s: SandboxState, doc: string, create: Reply, user: UserReply, upload: Reply)
    requires !s.audit.passed
    ensures var s1 := HandleGithubDeploy(s, doc, create, user, upload);
      && s1.calls == s.calls && s1.storage == s.storage && s1.deployStatus == s.deployStatus
      && s1.audit.passed
      && (s.ghToken != "" && s.repoName != "" ==>
            |HandleGithubDeploy(s1, doc, create, user, upload).calls| > |s.calls|)
  {
  }

  /** A deploy that goes ahead saves the token, records a status and ends
      not deploying; the upload carries the preview document and happens
      only after the create call was accepted and the user was read. */
  lemma DeployOutcome(s: SandboxState, doc: string, create: Reply, user: UserReply, upload: Reply)
    requires s.audit.passed && s.ghToken != "" && s.repoName != ""
    ensures var s' := HandleGithubDeploy(s, doc, create, user, upload);
      && s'.storage == s.storage[TokenKey := s.ghToken]
      && s'.deployStatus.Some? && !s'.isDeploying
      && s'.calls[..|s.calls|] == s.calls
      && s'.calls[|s.calls|] == CreateRepo(s.ghToken, s.repoName)
      && (|s'.calls| == |s.calls| + 3 <==> CreateAccepted(create) && user.UserJson?)
      && (|s'.calls| == |s.calls| + 3 ==>
            s'.calls[|s.calls| + 2] == PutIndex(s.ghToken, LoginText(user.login), s.repoName, doc))
      && (s'.deployStatus.value.kind == Success ==>
            s'.deployStatus.value.msg == DeployedMsg + LoginText(user.login) + "/" + s.repoName)
  {
  }

  /** An existing repository (422) is treated like a fresh one; any other
      failed creation stops with the token message. */
  lemma ExistingRepoProceeds(token: string, repo: string, doc: string, user: UserReply, upload: Reply, ok: bool, status: int)
    ensures DeployAttempt(token, repo, doc, Response(false, 422), user, upload).1
         == DeployAttempt(token, repo, doc, Response(true, status), user, upload).1
    ensures !ok && status != 422 ==>
      DeployAttempt(token, repo, doc, Response(ok, status), user, upload) == (DeployStatus(Failure, CreateFailedMsg), [CreateRepo(token, repo)])
  {
  }
}
