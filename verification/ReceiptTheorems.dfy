/** What receipt verification means, stated without its loop. */
module ReceiptTheorems {
  import opened Wrappers
  import opened Json
  import opened Digests
  import opened Receipts
  import opened Times

  // ----- A genuine signature entry -----

  /** An active ES256 key of the role, inside its validity window when the time is known. */
  ghost predicate UsableKey(env: Env, key: Fields, role: string, at: Option<int>) {
    && Get(key, "status") == Str("active")
    && Get(key, "alg") == Str("ES256")
    && Get(key, "role") == Str(role)
    && (at.Some? ==> NotBefore(env, Get(key, "not_before"), at.value))
    && (at.Some? ==> NotAfter(env, Get(key, "not_after"), at.value))
  }

  ghost predicate NotBefore(env: Env, bound: Json, at: int) {
    bound.Str? ==> exists t :: env.parseTime(bound.s) == Instant(t) && t <= at
  }

  ghost predicate NotAfter(env: Env, bound: Json, at: int) {
    bound.Str? ==> exists t :: env.parseTime(bound.s) == Instant(t) && at <= t
  }

  /** The protected header decodes to an object naming ES256 and the key. */
  ghost predicate HeaderNames(protected: string, kid: string) {
    exists header :: ReadHeader(protected) == Some(Obj(header))
      && Get(header, "alg") == Str("ES256") && Get(header, "kid") == Str(kid)
  }

  /** The entry's signature over its own header and this payload verifies under the key. */
  ghost predicate SignedBy(env: Env, key: Fields, protected: string, payload: string, value: string) {
    exists jwk :: Find(key, "jwk") == Some(Obj(jwk))
      && VerifyJws(env, jwk, protected + "." + payload, value) == Genuine
  }

  /** The entry is, on its own, a signature by `kid` in `role` over exactly this payload. */
  ghost predicate GenuineEntry(env: Env, registry: Registry, at: Option<int>, payload: string,
                               entry: Json, kid: string, role: string)
  {
    && entry.Obj?
    && Get(entry.fields, "kid") == Str(kid)
    && Get(entry.fields, "signer_role") == Str(role)
    && Get(entry.fields, "alg") == Str("ES256")
    && kid in registry
    && UsableKey(env, registry[kid], role, at)
    && GenuineParts(env, registry[kid], kid, payload, entry.fields)
  }

  /** The protected header names the key and the signature covers header and payload. */
  ghost predicate GenuineParts(env: Env, key: Fields, kid: string, payload: string, entry: Fields) {
    var protected, value := Get(entry, "protected"), Get(entry, "signature");
    && payload != "" && Get(entry, "payload") == Str(payload)
    && protected.Str? && protected.s != "" && value.Str? && value.s != ""
    && HeaderNames(protected.s, kid)
    && SignedBy(env, key, protected.s, payload, value.s)
  }

  lemma {:induction false} CheckEndExactly(env: Env, key: Fields, at: int)
    ensures CheckEnd(env, key, at).Usable? <==> NotAfter(env, Get(key, "not_after"), at)
  {
    var end := Get(key, "not_after");
    if end.Str? && env.parseTime(end.s).Instant? {
      assert env.parseTime(end.s) == Instant(env.parseTime(end.s).at);
    }
  }

  lemma {:induction false} CheckKeyExactly(env: Env, key: Fields, role: string, at: Option<int>)
    ensures CheckKey(env, key, role, at).Usable? <==> UsableKey(env, key, role, at)
  {
    if at.Some? {
      var start := Get(key, "not_before");
      if start.Str? && env.parseTime(start.s).Instant? {
        assert env.parseTime(start.s) == Instant(env.parseTime(start.s).at);
      }
      CheckEndExactly(env, key, at.value);
    }
  }

  lemma {:induction false} HeaderProblemExactly(protected: string, kid: string)
    ensures HeaderProblem(protected, kid).None? <==> HeaderNames(protected, kid)
  {
    match ReadHeader(protected)
    case None =>
    case Some(header) => if header.Obj? { assert header == Obj(header.fields); }
  }

  lemma {:induction false} CheckPartsExactly(env: Env, key: Fields, kid: string, role: string, payload: string,
    entry: Fields)
    ensures CheckParts(env, key, kid, role, payload, entry) == Accept(kid, role)
       <==> GenuineParts(env, key, kid, payload, entry)
  {
    var p, v := Get(entry, "protected"), Get(entry, "signature");
    if p.Str? && v.Str? {
      HeaderProblemExactly(p.s, kid);
      match Find(key, "jwk")
      case None =>
      case Some(jwk) => if jwk.Obj? { assert jwk == Obj(jwk.fields); }
    }
  }

  /** The chain of early exits accepts exactly the genuine entries. */
  lemma {:induction false} CheckEntryExactly(env: Env, registry: Registry, at: Option<int>, payload: string,
                          entry: Json, kid: string, role: string)
    ensures CheckEntry(env, registry, at, payload, entry) == Accept(kid, role)
       <==> GenuineEntry(env, registry, at, payload, entry, kid, role)
  {
    if entry.Obj? {
      var k, r := Get(entry.fields, "kid"), Get(entry.fields, "signer_role");
      if k.Str? && r.Str? && k.s in registry {
        CheckKeyExactly(env, registry[k.s], r.s, at);
        CheckPartsExactly(env, registry[k.s], k.s, r.s, payload, entry.fields);
      }
    }
  }

  // ----- What the loop computes -----

  ghost predicate Accepted(rs: seq<EntryResult>, kid: string) {
    exists i :: 0 <= i < |rs| && rs[i].Accept? && rs[i].kid == kid
  }

  ghost predicate RoleAccepted(rs: seq<EntryResult>, role: string) {
    exists i :: 0 <= i < |rs| && rs[i].Accept? && rs[i].role == role
  }

  /** One key has one role. */
  ghost predicate Coherent(rs: seq<EntryResult>) {
    forall i, j :: 0 <= i < |rs| && 0 <= j < |rs| && rs[i].Accept? && rs[j].Accept? ==>
      (rs[i].kid == rs[j].kid ==> rs[i].role == rs[j].role)
  }

  ghost predicate AllAccepted(rs: seq<EntryResult>) {
    forall i :: 0 <= i < |rs| ==> rs[i].Accept?
  }

  ghost predicate NoErrors(issues: seq<Issue>) {
    forall i :: 0 <= i < |issues| ==> issues[i].severity != Error
  }

  lemma {:induction false} TallyKids(rs: seq<EntryResult>)
    requires TallyAll(rs).Some?
    ensures forall k :: k in TallyAll(rs).value.kids <==> Accepted(rs, k)
    ensures TallyAll(rs).value.valid == |TallyAll(rs).value.kids|
  {
    if rs != [] {
      TallyKids(rs[..|rs| - 1]);
      forall k ensures k in TallyAll(rs).value.kids <==> Accepted(rs, k) { AcceptedSplit(rs, k); }
    }
  }

  lemma {:induction false} TallyRoles(rs: seq<EntryResult>)
    requires TallyAll(rs).Some? && Coherent(rs)
    ensures forall r :: r in TallyAll(rs).value.roles <==> RoleAccepted(rs, r)
  {
    if rs != [] {
      var n := |rs| - 1;
      var front, last := rs[..n], rs[n];
      assert forall i :: 0 <= i < n ==> front[i] == rs[i];
      TallyRoles(front);
      if last.Accept? && last.kid in TallyAll(front).value.kids {
        TallyKids(front);
        var i :| 0 <= i < n && front[i].Accept? && front[i].kid == last.kid;
        assert rs[i].role == rs[n].role;
        assert RoleAccepted(front, last.role);
      }
      forall r ensures r in TallyAll(rs).value.roles <==> RoleAccepted(rs, r) {
        RoleAcceptedSplit(rs, r);
      }
    }
  }

  lemma {:induction false} TallyErrors(rs: seq<EntryResult>)
    requires TallyAll(rs).Some?
    ensures NoErrors(TallyAll(rs).value.issues) <==> AllAccepted(rs)
  {
    if rs != [] {
      var n := |rs| - 1;
      TallyErrors(rs[..n]);
      assert forall i :: 0 <= i < n ==> rs[..n][i] == rs[i];
      IssuesSplit(TallyAll(rs[..n]).value.issues, TallyAll(rs).value.issues, rs[n]);
    }
  }

  lemma {:induction false} AcceptedSplit(rs: seq<EntryResult>, k: string)
    requires rs != []
    ensures var n := |rs| - 1;
            Accepted(rs, k) <==> Accepted(rs[..n], k) || (rs[n].Accept? && rs[n].kid == k)
  {
    var n := |rs| - 1;
    if Accepted(rs[..n], k) {
      var i :| 0 <= i < n && rs[..n][i].Accept? && rs[..n][i].kid == k;
      assert rs[i] == rs[..n][i];
    }
    if Accepted(rs, k) {
      var i :| 0 <= i < |rs| && rs[i].Accept? && rs[i].kid == k;
      if i < n { assert rs[..n][i] == rs[i]; }
    }
  }

  lemma {:induction false} RoleAcceptedSplit(rs: seq<EntryResult>, role: string)
    requires rs != []
    ensures var n := |rs| - 1;
            RoleAccepted(rs, role) <==> RoleAccepted(rs[..n], role) || (rs[n].Accept? && rs[n].role == role)
  {
    var n := |rs| - 1;
    if RoleAccepted(rs[..n], role) {
      var i :| 0 <= i < n && rs[..n][i].Accept? && rs[..n][i].role == role;
      assert rs[i] == rs[..n][i];
    }
    if RoleAccepted(rs, role) {
      var i :| 0 <= i < |rs| && rs[i].Accept? && rs[i].role == role;
      if i < n { assert rs[..n][i] == rs[i]; }
    }
  }

  lemma {:induction false} IssuesSplit(before: seq<Issue>, after: seq<Issue>, r: EntryResult)
    requires after == before
          || (r.Accept? && exists i: Issue :: after == before + [i] && i.severity == Warning)
          || (!r.Accept? && exists i: Issue :: after == before + [i] && i.severity == Error)
    requires after == before ==> r.Accept?
    ensures NoErrors(after) <==> NoErrors(before) && r.Accept?
  {
    if after != before {
      var i: Issue :| after == before + [i];
      assert after[|before|] == i;
      assert forall j :: 0 <= j < |before| ==> after[j] == before[j];
    }
  }

  lemma {:induction false} EntriesCoherent(env: Env, receipt: Fields, registry: Registry)
    ensures Coherent(EntryResults(env, receipt, registry))
  {
    var rs := EntryResults(env, receipt, registry);
    forall i, j | 0 <= i < |rs| && 0 <= j < |rs| && rs[i].Accept? && rs[j].Accept?
                  && rs[i].kid == rs[j].kid
      ensures rs[i].role == rs[j].role
    {
      AcceptNames(env, receipt, registry, i);
      AcceptNames(env, receipt, registry, j);
    }
  }

  // ----- The declarative predicate -----

  /** A usable policy: an integer threshold that meets the floor of the release class. */
  ghost predicate SoundPolicy(receipt: Fields) {
    && Get(receipt, "policy").Obj?
    && MinSignatures(receipt).Some?
    && RequiredRoles(receipt).Some?
    && (ClassIn(receipt, {"A"}) ==> MinSignatures(receipt).value >= 2)
    && (ClassIn(receipt, {"B", "C"}) ==> MinSignatures(receipt).value >= 1)
  }

  ghost predicate SoundHeader(env: Env, receipt: Fields, hash: string) {
    && Get(receipt, "schema_version") == Str("sentinel.receipt.v1")
    && CreatedAt(env, receipt).Some?
    && ClassIn(receipt, {"A", "B", "C"})
    && Get(Chain(receipt), "sequence").Num?
    && (exists previous :: Get(Chain(receipt), "previous_hash") == Str(previous) && IsUrn(previous))
    && Get(Chain(receipt), "receipt_hash") == Str(hash)
  }

  /** The entry is a genuine signature over this receipt by some registered key. */
  ghost predicate SignsReceipt(env: Env, receipt: Fields, registry: Registry, entry: Json,
                               kid: string, role: string)
  {
    GenuineEntry(env, registry, CreatedAt(env, receipt), PayloadText(receipt), entry, kid, role)
  }

  ghost predicate IsGenuine(env: Env, receipt: Fields, registry: Registry, entry: Json) {
    exists kid, role :: SignsReceipt(env, receipt, registry, entry, kid, role)
  }

  ghost predicate EveryEntryGenuine(env: Env, receipt: Fields, registry: Registry) {
    forall i :: 0 <= i < |Entries(receipt)| ==>
      IsGenuine(env, receipt, registry, Entries(receipt)[i])
  }

  /** The distinct key identifiers the entries name. */
  function SigningKids(entries: seq<Json>): set<string> {
    set e | e in entries && e.Obj? && Get(e.fields, "kid").Str? :: Get(e.fields, "kid").s
  }

  ghost predicate RoleHeld(registry: Registry, kids: set<string>, role: string) {
    exists kid :: kid in kids && kid in registry && Get(registry[kid], "role") == Str(role)
  }

  /** Every required role is the registered role of one of the keys. */
  ghost predicate RolesCovered(required: seq<string>, registry: Registry, kids: set<string>) {
    forall role :: role in required ==> RoleHeld(registry, kids, role)
  }

  ghost predicate QuorumMet(receipt: Fields, registry: Registry) {
    var kids := SigningKids(Entries(receipt));
    MinOrZero(receipt) <= |kids| && RolesCovered(RolesOrNone(receipt), registry, kids)
  }

  ghost predicate Acceptable(env: Env, receipt: Fields, registry: Registry) {
    && SoundPolicy(receipt)
    && SoundHeader(env, receipt, ReceiptHash(env.sha, receipt))
    && Entries(receipt) != []
    && EveryEntryGenuine(env, receipt, registry)
    && QuorumMet(receipt, registry)
  }

  // ----- Refinement -----

  lemma {:induction false} NoErrorsConcat(a: seq<Issue>, b: seq<Issue>)
    ensures NoErrors(a + b) <==> NoErrors(a) && NoErrors(b)
  {
    assert forall i :: 0 <= i < |a| ==> (a + b)[i] == a[i];
    assert forall i :: 0 <= i < |b| ==> (a + b)[|a| + i] == b[i];
  }

  lemma {:induction false} NoErrorsWhen(problem: bool, code: Code)
    ensures NoErrors(When(problem, code)) <==> !problem
  {
    if problem { assert When(problem, code)[0].severity == Error; }
  }

  lemma {:induction false} NoRoleIssues(required: seq<string>, matched: set<string>)
    ensures NoErrors(RoleIssues(required, matched)) <==> forall r :: r in required ==> r in matched
  {
    if required != [] {
      NoRoleIssues(required[1..], matched);
      var first := if required[0] in matched then [] else [Issue(Error, RequiredRoleMissing, required[0])];
      if first != [] { assert first[0].severity == Error; }
      NoErrorsConcat(first, RoleIssues(required[1..], matched));
      assert required == [required[0]] + required[1..];
    }
  }

  lemma {:induction false} NoPolicyIssues(receipt: Fields)
    ensures NoErrors(PolicyIssues(receipt)) <==>
            && Get(receipt, "policy").Obj? && MinSignatures(receipt).Some?
            && (ClassIn(receipt, {"B", "C"}) ==> MinSignatures(receipt).value >= 1)
  {
    var a, b := !Get(receipt, "policy").Obj?, MinSignatures(receipt).None?;
    var c := ClassIn(receipt, {"B", "C"}) && Find(Policy(receipt), "min_signatures").None?;
    var d := ClassIn(receipt, {"B", "C"}) && MinOrZero(receipt) < 1;
    var wa, wc := When(a, PolicyInvalid), When(c, ReleasePolicyRequired);
    var wb, wd := When(b, MinSignaturesInvalid), When(d, ReleasePolicyTooWeak);
    NoErrorsWhen(a, PolicyInvalid);
    NoErrorsWhen(b, MinSignaturesInvalid);
    NoErrorsWhen(c, ReleasePolicyRequired);
    NoErrorsWhen(d, ReleasePolicyTooWeak);
    NoErrorsConcat(wa, wc);
    NoErrorsConcat(wa + wc, wb);
    NoErrorsConcat(wa + wc + wb, wd);
  }

  lemma {:induction false} NoErrorsConcat3(a: seq<Issue>, b: seq<Issue>, c: seq<Issue>)
    ensures NoErrors(a + b + c) <==> NoErrors(a) && NoErrors(b) && NoErrors(c)
  {
    NoErrorsConcat(a, b);
    NoErrorsConcat(a + b, c);
  }

  lemma {:induction false} NoErrorsWhen3(a: bool, x: Code, b: bool, y: Code, c: bool, z: Code)
    ensures NoErrors(When(a, x) + When(b, y) + When(c, z)) <==> !a && !b && !c
  {
    NoErrorsConcat3(When(a, x), When(b, y), When(c, z));
    NoErrorsWhen(a, x);
    NoErrorsWhen(b, y);
    NoErrorsWhen(c, z);
  }

  lemma {:induction false} NoFormIssues(env: Env, receipt: Fields)
    ensures NoErrors(FormIssues(env, receipt)) <==>
            && Get(receipt, "schema_version") == Str("sentinel.receipt.v1")
            && CreatedAt(env, receipt).Some? && ClassIn(receipt, {"A", "B", "C"})
  {
    NoErrorsWhen3(Get(receipt, "schema_version") != Str("sentinel.receipt.v1"), SchemaVersionInvalid,
                  CreatedAt(env, receipt).None?, CreatedAtInvalid,
                  !ClassIn(receipt, {"A", "B", "C"}), ReleaseClassInvalid);
  }

  lemma {:induction false} NoChainIssues(chain: Fields, hash: string)
    ensures NoErrors(ChainIssues(chain, hash)) <==>
            && Get(chain, "sequence").Num?
            && (exists previous :: Get(chain, "previous_hash") == Str(previous) && IsUrn(previous))
            && Get(chain, "receipt_hash") == Str(hash)
  {
    var previous := Get(chain, "previous_hash");
    NoErrorsWhen3(!Get(chain, "sequence").Num?, ChainSequenceInvalid,
                  !(previous.Str? && IsUrn(previous.s)), PreviousHashInvalid,
                  Get(chain, "receipt_hash") != Str(hash), ReceiptHashMismatch);
    if previous.Str? { assert previous == Str(previous.s); }
  }

  lemma {:induction false} NoHeaderIssues(env: Env, receipt: Fields, hash: string)
    ensures NoErrors(HeaderIssues(env, receipt, hash)) <==>
            SoundHeader(env, receipt, hash) && Entries(receipt) != [] && RequiredRoles(receipt).Some?
  {
    var g, h := Entries(receipt) == [], RequiredRoles(receipt).None?;
    NoFormIssues(env, receipt);
    NoChainIssues(Chain(receipt), hash);
    NoErrorsWhen(g, SignaturesMissing);
    NoErrorsWhen(h, RequiredRolesInvalid);
    NoErrorsConcat(When(g, SignaturesMissing), When(h, RequiredRolesInvalid));
    NoErrorsConcat3(FormIssues(env, receipt), ChainIssues(Chain(receipt), hash), ListIssues(receipt));
  }

  lemma {:induction false} NoQuorumIssues(receipt: Fields, valid: nat)
    ensures NoErrors(QuorumIssues(receipt, valid)) <==>
            valid >= MinOrZero(receipt) && (ClassIn(receipt, {"A"}) ==> MinOrZero(receipt) >= 2)
  {
    var a := valid < MinOrZero(receipt);
    var b := ClassIn(receipt, {"A"}) && MinOrZero(receipt) < 2;
    NoErrorsWhen(a, MinSignaturesNotMet);
    NoErrorsWhen(b, ClassAPolicyTooWeak);
    NoErrorsConcat(When(a, MinSignaturesNotMet), When(b, ClassAPolicyTooWeak));
  }

  /** The concluding verdict, in terms of the tally. */
  lemma {:induction false} ConcludeExactly(env: Env, receipt: Fields, hash: string, t: Tally)
    ensures Conclude(env, receipt, hash, t).verified <==>
            && SoundPolicy(receipt) && SoundHeader(env, receipt, hash) && Entries(receipt) != []
            && NoErrors(t.issues) && t.valid >= MinOrZero(receipt)
            && forall r :: r in RolesOrNone(receipt) ==> r in t.roles
  {
    var p, h := PolicyIssues(receipt), HeaderIssues(env, receipt, hash);
    var r, q := RoleIssues(RolesOrNone(receipt), t.roles), QuorumIssues(receipt, t.valid);
    NoPolicyIssues(receipt);
    NoHeaderIssues(env, receipt, hash);
    NoRoleIssues(RolesOrNone(receipt), t.roles);
    NoQuorumIssues(receipt, t.valid);
    NoErrorsConcat(p, h);
    NoErrorsConcat(p + h, t.issues);
    NoErrorsConcat(r, q);
    NoErrorsConcat(p + h + t.issues, r + q);
  }

  lemma {:induction false} ResultOf(env: Env, receipt: Fields, registry: Registry, i: nat, kid: string, role: string)
    requires i < |Entries(receipt)|
    ensures EntryResults(env, receipt, registry)[i] == Accept(kid, role) <==>
            SignsReceipt(env, receipt, registry, Entries(receipt)[i], kid, role)
  {
    CheckEntryExactly(env, registry, CreatedAt(env, receipt), PayloadText(receipt),
                      Entries(receipt)[i], kid, role);
  }

  /** The key and role an accepted entry names are registered together. */
  lemma {:induction false} AcceptNames(env: Env, receipt: Fields, registry: Registry, i: nat)
    requires i < |Entries(receipt)| && EntryResults(env, receipt, registry)[i].Accept?
    ensures var r := EntryResults(env, receipt, registry)[i];
            && r.kid in registry && Get(registry[r.kid], "role") == Str(r.role)
            && Entries(receipt)[i].Obj? && Get(Entries(receipt)[i].fields, "kid") == Str(r.kid)
  {
    var r := EntryResults(env, receipt, registry)[i];
    ResultOf(env, receipt, registry, i, r.kid, r.role);
  }

  lemma {:induction false} AcceptedIsGenuine(env: Env, receipt: Fields, registry: Registry, i: nat)
    requires i < |Entries(receipt)|
    ensures EntryResults(env, receipt, registry)[i].Accept?
       <==> IsGenuine(env, receipt, registry, Entries(receipt)[i])
  {
    var r := EntryResults(env, receipt, registry)[i];
    if r.Accept? {
      ResultOf(env, receipt, registry, i, r.kid, r.role);
    }
    if kid, role :| SignsReceipt(env, receipt, registry, Entries(receipt)[i], kid, role) {
      ResultOf(env, receipt, registry, i, kid, role);
    }
  }

  lemma {:induction false} AllAcceptedExactly(env: Env, receipt: Fields, registry: Registry)
    ensures AllAccepted(EntryResults(env, receipt, registry)) <==> EveryEntryGenuine(env, receipt, registry)
  {
    var rs, es := EntryResults(env, receipt, registry), Entries(receipt);
    forall i | 0 <= i < |es|
      ensures rs[i].Accept? <==> IsGenuine(env, receipt, registry, es[i])
    {
      AcceptedIsGenuine(env, receipt, registry, i);
    }
  }

  /** When every entry is accepted, the tally's kids are the named kids and its roles theirs. */
  lemma {:induction false} GenuineTally(env: Env, receipt: Fields, registry: Registry, t: Tally)
    requires TallyAll(EntryResults(env, receipt, registry)) == Some(t)
    requires AllAccepted(EntryResults(env, receipt, registry))
    ensures t.kids == SigningKids(Entries(receipt)) && t.valid == |t.kids|
    ensures forall role :: role in t.roles <==> RoleHeld(registry, t.kids, role)
  {
    var rs, es := EntryResults(env, receipt, registry), Entries(receipt);
    TallyKids(rs);
    forall i | 0 <= i < |es|
      ensures es[i].Obj? && Get(es[i].fields, "kid") == Str(rs[i].kid)
      ensures rs[i].kid in registry && Get(registry[rs[i].kid], "role") == Str(rs[i].role)
    {
      AcceptNames(env, receipt, registry, i);
    }
    KidsNamed(rs, es, t.kids);
    EntriesCoherent(env, receipt, registry);
    TallyRoles(rs);
    RolesHeld(registry, rs, t.kids, t.roles);
  }

  lemma {:induction false} KidsNamed(rs: seq<EntryResult>, es: seq<Json>, kids: set<string>)
    requires |rs| == |es| && AllAccepted(rs)
    requires forall i :: 0 <= i < |es| ==> es[i].Obj? && Get(es[i].fields, "kid") == Str(rs[i].kid)
    requires forall k :: k in kids <==> Accepted(rs, k)
    ensures kids == SigningKids(es)
  {
    forall k ensures k in kids <==> k in SigningKids(es) {
      if k in kids {
        var i :| 0 <= i < |rs| && rs[i].Accept? && rs[i].kid == k;
        assert es[i] in es;
      }
    }
  }

  lemma {:induction false} RolesHeld(registry: Registry, rs: seq<EntryResult>, kids: set<string>, roles: set<string>)
    requires AllAccepted(rs)
    requires forall i :: 0 <= i < |rs| ==>
               rs[i].kid in registry && Get(registry[rs[i].kid], "role") == Str(rs[i].role)
    requires forall k :: k in kids <==> Accepted(rs, k)
    requires forall r :: r in roles <==> RoleAccepted(rs, r)
    ensures forall role :: role in roles <==> RoleHeld(registry, kids, role)
  {
    forall role ensures role in roles <==> RoleHeld(registry, kids, role) {
      if role in roles {
        var i :| 0 <= i < |rs| && rs[i].Accept? && rs[i].role == role;
        assert Accepted(rs, rs[i].kid);
      }
    }
  }

  /** An accepted entry never crashes the loop, so genuine entries leave a tally. */
  lemma {:induction false} AcceptedTallies(rs: seq<EntryResult>)
    requires AllAccepted(rs)
    ensures TallyAll(rs).Some?
  {
    if rs != [] {
      var n := |rs| - 1;
      assert forall i :: 0 <= i < n ==> rs[..n][i] == rs[i];
      AcceptedTallies(rs[..n]);
    }
  }

  ghost predicate IsVerified(o: Outcome) {
    o.Finished? && o.result.status == RcVerified
  }

  /** A receipt whose entries are all genuine: every key is counted once, the rest is policy. */
  lemma {:induction false} GenuineVerdict(env: Env, receipt: Fields, registry: Registry)
    requires EveryEntryGenuine(env, receipt, registry) && registry != map[]
    ensures var verdict := Judge(env, receipt, registry);
            var kids := SigningKids(Entries(receipt));
            && (verdict.Finished? <==>
                !Unhashable(Get(receipt, "release_class")) && !CreatedTime(env, receipt).Overflow?)
            && (verdict.Finished? ==>
                && verdict.result.validSignatures == |kids|
                && (verdict.result.status == RcVerified <==>
                    && SoundPolicy(receipt) && SoundHeader(env, receipt, ReceiptHash(env.sha, receipt))
                    && Entries(receipt) != []
                    && MinOrZero(receipt) <= |kids|
                    && RolesCovered(RolesOrNone(receipt), registry, kids)))
  {
    var rs, hash := EntryResults(env, receipt, registry), ReceiptHash(env.sha, receipt);
    AllAcceptedExactly(env, receipt, registry);
    AcceptedTallies(rs);
    var t := TallyAll(rs).value;
    GenuineTally(env, receipt, registry, t);
    TallyErrors(rs);
    ConcludeExactly(env, receipt, hash, t);
    assert Judge(env, receipt, registry) == JudgeTally(env, receipt, registry, hash, Some(t));
  }

  lemma {:induction false} GenuineRegistry(env: Env, receipt: Fields, registry: Registry)
    requires EveryEntryGenuine(env, receipt, registry) && Entries(receipt) != []
    ensures registry != map[]
  {
    AllAcceptedExactly(env, receipt, registry);
    AcceptNames(env, receipt, registry, 0);
  }

  /** The loop with its early exits refines the declarative predicate. */
  lemma {:induction false} VerifiedExactly(env: Env, receipt: Fields, registry: Registry)
    ensures IsVerified(Judge(env, receipt, registry)) <==> Acceptable(env, receipt, registry)
    ensures IsVerified(Judge(env, receipt, registry)) ==>
            Judge(env, receipt, registry).result.validSignatures == |SigningKids(Entries(receipt))|
  {
    if IsVerified(Judge(env, receipt, registry)) {
      VerifiedGenuine(env, receipt, registry);
      GenuineVerdict(env, receipt, registry);
    }
    if Acceptable(env, receipt, registry) {
      SoundHeaderReads(env, receipt, ReceiptHash(env.sha, receipt));
      GenuineRegistry(env, receipt, registry);
      GenuineVerdict(env, receipt, registry);
    }
  }

  lemma {:induction false} VerifiedGenuine(env: Env, receipt: Fields, registry: Registry)
    requires IsVerified(Judge(env, receipt, registry))
    ensures EveryEntryGenuine(env, receipt, registry) && registry != map[]
  {
    var rs, hash := EntryResults(env, receipt, registry), ReceiptHash(env.sha, receipt);
    VerifiedTally(env, receipt, registry, hash, TallyAll(rs));
    TallyErrors(rs);
    AllAcceptedExactly(env, receipt, registry);
  }

  lemma {:induction false} VerifiedTally(
    env: Env, receipt: Fields, registry: Registry, hash: string, tally: Option<Tally>)
    requires IsVerified(JudgeTally(env, receipt, registry, hash, tally))
    ensures registry != map[] && tally.Some? && NoErrors(tally.value.issues)
  {
    if tally.Some? {
      ConcludeExactly(env, receipt, hash, tally.value);
    }
  }

  /** A sound header has a class and a time that can be read. */
  lemma {:induction false} SoundHeaderReads(env: Env, receipt: Fields, hash: string)
    requires SoundHeader(env, receipt, hash)
    ensures !Unhashable(Get(receipt, "release_class")) && !CreatedTime(env, receipt).Overflow?
  {
  }

  /** A verified class A receipt carries genuine signatures by two distinct active keys. */
  lemma {:induction false} ClassANeedsTwoKeys(env: Env, receipt: Fields, registry: Registry)
    requires IsVerified(Judge(env, receipt, registry)) && ClassIn(receipt, {"A"})
    ensures exists i, j, k1, r1, k2, r2 ::
              && 0 <= i < |Entries(receipt)| && 0 <= j < |Entries(receipt)| && k1 != k2
              && SignsReceipt(env, receipt, registry, Entries(receipt)[i], k1, r1)
              && SignsReceipt(env, receipt, registry, Entries(receipt)[j], k2, r2)
  {
    VerifiedExactly(env, receipt, registry);
    AllAcceptedExactly(env, receipt, registry);
    var es, rs := Entries(receipt), EntryResults(env, receipt, registry);
    var i, j := TwoKids(es);
    AcceptNames(env, receipt, registry, i);
    AcceptNames(env, receipt, registry, j);
    ResultOf(env, receipt, registry, i, rs[i].kid, rs[i].role);
    ResultOf(env, receipt, registry, j, rs[j].kid, rs[j].role);
  }

  lemma {:induction false} TwoKids(es: seq<Json>) returns (i: nat, j: nat)
    requires |SigningKids(es)| >= 2
    ensures i < |es| && j < |es| && es[i].Obj? && es[j].Obj?
    ensures Get(es[i].fields, "kid") != Get(es[j].fields, "kid")
  {
    var kids := SigningKids(es);
    var k1 :| k1 in kids;
    assert |kids - {k1}| >= 1;
    var k2 :| k2 in kids - {k1};
    i :| 0 <= i < |es| && es[i].Obj? && Get(es[i].fields, "kid") == Str(k1);
    j :| 0 <= j < |es| && es[j].Obj? && Get(es[j].fields, "kid") == Str(k2);
  }
}
