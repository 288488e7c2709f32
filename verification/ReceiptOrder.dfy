/**
 Reordering the signatures of a receipt. The duplicate branch depends on which entry came
 first, yet the verdict, the counts, the roles and the bag of issues do not.
 */
module ReceiptOrder {
  import opened Wrappers
  import opened Json
  import opened Receipts
  import opened ReceiptTheorems

  /** A tally with the order of its issues forgotten; None once the verifier has raised. */
  datatype Bag = Bag(issues: multiset<Issue>, kids: set<string>, roles: set<string>, valid: nat)

  function Forget(t: Option<Tally>): Option<Bag> {
    match t
    case None => None
    case Some(Tally(issues, kids, roles, valid)) => Some(Bag(multiset(issues), kids, roles, valid))
  }

  /** Whether the result is the first valid signature by its key. */
  predicate IsNew(kids: set<string>, r: EntryResult) {
    r.Accept? && r.kid !in kids
  }

  /** What one result adds to the issues of a bag that already holds `kids`. */
  function Noted(kids: set<string>, r: EntryResult): multiset<Issue> {
    match r
    case Reject(code, about) => multiset{Issue(Error, code, about)}
    case Accept(kid, _) =>
      if kid in kids then multiset{Issue(Warning, DuplicateSignatureIgnored, kid)} else multiset{}
    case Crash => multiset{}
  }

  function BagOne(b: Option<Bag>, r: EntryResult): Option<Bag> {
    if b.None? || r.Crash? then None
    else
      var Bag(issues, kids, roles, valid) := b.value;
      if IsNew(kids, r) then Some(Bag(issues + Noted(kids, r), kids + {r.kid}, roles + {r.role}, valid + 1))
      else Some(Bag(issues + Noted(kids, r), kids, roles, valid))
  }

  function BagAll(rs: seq<EntryResult>): Option<Bag> {
    if rs == [] then Some(Bag(multiset{}, {}, {}, 0))
    else BagOne(BagAll(rs[..|rs| - 1]), rs[|rs| - 1])
  }

  lemma {:induction false} ForgetAll(rs: seq<EntryResult>)
    ensures Forget(TallyAll(rs)) == BagAll(rs)
  {
    if rs != [] {
      var n := |rs| - 1;
      ForgetAll(rs[..n]);
      if TallyAll(rs[..n]).Some? { ForgetOne(TallyAll(rs[..n]).value, rs[n]); }
    }
  }

  lemma {:induction false} ForgetOne(t: Tally, r: EntryResult)
    ensures Forget(TallyOne(t, r)) == BagOne(Forget(Some(t)), r)
  {
    match r
    case Crash =>
    case Reject(code, about) =>
      assert multiset(t.issues + [Issue(Error, code, about)])
          == multiset(t.issues) + multiset{Issue(Error, code, about)};
    case Accept(kid, _) =>
      assert multiset(t.issues) + multiset{} == multiset(t.issues);
      assert multiset(t.issues + [Issue(Warning, DuplicateSignatureIgnored, kid)])
          == multiset(t.issues) + multiset{Issue(Warning, DuplicateSignatureIgnored, kid)};
  }

  lemma {:induction false} BagSwap(b: Option<Bag>, x: EntryResult, y: EntryResult)
    requires x.Accept? && y.Accept? && x.kid == y.kid ==> x.role == y.role
    ensures BagOne(BagOne(b, x), y) == BagOne(BagOne(b, y), x)
  {
    if b.Some? && !x.Crash? && !y.Crash? {
      if x.Accept? && y.Accept? {
        AcceptSwap(b.value, x, y);
      } else {
        Reassociate(b.value.issues, Noted(b.value.kids, x), Noted(b.value.kids, y));
      }
    }
  }

  lemma {:induction false} AcceptSwap(b: Bag, x: EntryResult, y: EntryResult)
    requires x.Accept? && y.Accept? && (x.kid == y.kid ==> x.role == y.role)
    ensures BagOne(BagOne(Some(b), x), y) == BagOne(BagOne(Some(b), y), x)
  {
    if x.kid != y.kid {
      assert b.kids + {x.kid} + {y.kid} == b.kids + {y.kid} + {x.kid};
      assert b.roles + {x.role} + {y.role} == b.roles + {y.role} + {x.role};
      Reassociate(b.issues, Noted(b.kids, x), Noted(b.kids, y));
    }
  }

  lemma {:induction false} Reassociate(issues: multiset<Issue>, p: multiset<Issue>, q: multiset<Issue>)
    ensures issues + p + q == issues + q + p
  {
  }

  /** In a list with the same elements, the last of `a` can be found and taken out. */
  lemma {:induction false} TakeOut<T>(a: seq<T>, b: seq<T>) returns (i: nat)
    requires a != [] && multiset(a) == multiset(b)
    ensures i < |b| && b[i] == a[|a| - 1]
    ensures multiset(b[..i] + b[i + 1..]) == multiset(a[..|a| - 1])
  {
    var n := |a| - 1;
    assert a == a[..n] + [a[n]];
    assert a[n] in multiset(b);
    i :| 0 <= i < |b| && b[i] == a[n];
    assert b == b[..i] + ([b[i]] + b[i + 1..]);
    assert multiset(b) == multiset(b[..i]) + (multiset{b[i]} + multiset(b[i + 1..]));
    assert multiset(b[..i] + b[i + 1..]) == multiset(b[..i]) + multiset(b[i + 1..]);
    assert multiset(b[..i] + b[i + 1..]) == multiset(b) - multiset{b[i]};
    assert multiset(a[..n]) == multiset(a) - multiset{a[n]};
  }

  /** Moving one result to the end does not change the bag. */
  lemma {:induction false} BagMove(rs: seq<EntryResult>, i: nat)
    requires i < |rs| && Coherent(rs)
    ensures BagAll(rs) == BagOne(BagAll(rs[..i] + rs[i + 1..]), rs[i])
    decreases |rs|
  {
    var n := |rs| - 1;
    if i == n {
      assert rs[..i] + rs[i + 1..] == rs[..n];
    } else {
      var front := rs[..n];
      assert forall k :: 0 <= k < n ==> front[k] == rs[k];
      BagMove(front, i);
      var core := front[..i] + front[i + 1..];
      DropMiddle(rs, i);
      BagLast(core, rs[n]);
      BagSwap(BagAll(core), rs[i], rs[n]);
    }
  }

  lemma {:induction false} DropMiddle<T>(s: seq<T>, i: nat)
    requires i < |s| - 1
    ensures var front := s[..|s| - 1];
            s[..i] + s[i + 1..] == front[..i] + front[i + 1..] + [s[|s| - 1]]
  {
  }

  lemma {:induction false} BagLast(rs: seq<EntryResult>, r: EntryResult)
    ensures BagAll(rs + [r]) == BagOne(BagAll(rs), r)
  {
    assert (rs + [r])[..|rs|] == rs;
  }

  lemma {:induction false} BagPermutation(a: seq<EntryResult>, b: seq<EntryResult>)
    requires multiset(a) == multiset(b) && Coherent(b)
    ensures BagAll(a) == BagAll(b)
    decreases |a|
  {
    if a == [] {
      assert |multiset(a)| == |multiset(b)|;
    } else {
      var n := |a| - 1;
      var i := TakeOut(a, b);
      var without := b[..i] + b[i + 1..];
      assert forall k :: 0 <= k < |without| ==> without[k] == b[if k < i then k else k + 1];
      BagMove(b, i);
      BagPermutation(a[..n], without);
    }
  }

  // ----- The receipt -----

  lemma {:induction false} SignaturesUnsigned(receipt: Fields, v: Json)
    ensures var other := Put(receipt, "signatures", v);
            && Get(other, "signatures") == v
            && UnsignedBody(other) == UnsignedBody(receipt) && Chain(other) == Chain(receipt)
            && Get(other, "policy") == Get(receipt, "policy")
            && Get(other, "release_class") == Get(receipt, "release_class")
            && Get(other, "created_at") == Get(receipt, "created_at")
            && Get(other, "schema_version") == Get(receipt, "schema_version")
  {
    FindAfterPut(receipt, "signatures", v, "signatures");
    FindAfterPut(receipt, "signatures", v, "chain");
    FindAfterPut(receipt, "signatures", v, "policy");
    FindAfterPut(receipt, "signatures", v, "release_class");
    FindAfterPut(receipt, "signatures", v, "created_at");
    FindAfterPut(receipt, "signatures", v, "schema_version");
    PutElsewhere(receipt, "signatures", v);
  }

  /** Writing a field outside the projection leaves the signed fields as they were. */
  lemma {:induction false} PutElsewhere(receipt: Fields, key: string, v: Json)
    requires key !in SIGNED_FIELDS
    ensures SignedValues(Put(receipt, key, v)) == SignedValues(receipt)
  {
    forall i | 0 <= i < |SIGNED_FIELDS|
      ensures Get(Put(receipt, key, v), SIGNED_FIELDS[i]) == Get(receipt, SIGNED_FIELDS[i])
    {
      assert SIGNED_FIELDS[i] in SIGNED_FIELDS;
      FindAfterPut(receipt, key, v, SIGNED_FIELDS[i]);
    }
  }

  lemma {:induction false} CheckAllBag(check: Json -> EntryResult, a: seq<Json>, b: seq<Json>)
    requires multiset(a) == multiset(b)
    ensures multiset(CheckAll(check, a)) == multiset(CheckAll(check, b))
    decreases |a|
  {
    if a == [] {
      assert |multiset(a)| == |multiset(b)|;
      assert CheckAll(check, a) == CheckAll(check, b);
    } else {
      var n := |a| - 1;
      var i := TakeOut(a, b);
      CheckAllBag(check, a[..n], b[..i] + b[i + 1..]);
      CheckAllSplit(check, a, n);
      CheckAllSplit(check, b, i);
      assert a[..n] + a[n + 1..] == a[..n];
    }
  }

  lemma {:induction false} CheckAllSplit(check: Json -> EntryResult, a: seq<Json>, i: nat)
    requires i < |a|
    ensures multiset(CheckAll(check, a))
         == multiset(CheckAll(check, a[..i] + a[i + 1..])) + multiset{check(a[i])}
  {
    var front, back := CheckAll(check, a[..i]), CheckAll(check, a[i + 1..]);
    assert CheckAll(check, a) == front + ([check(a[i])] + back);
    assert CheckAll(check, a[..i] + a[i + 1..]) == front + back;
  }

  ghost predicate SameUpToIssueOrder(a: Outcome, b: Outcome) {
    if a.Finished? && b.Finished? then SameVerification(a.result, b.result) else a == b
  }

  lemma {:induction false} ErrorsInBag(a: seq<Issue>, b: seq<Issue>)
    requires multiset(a) == multiset(b)
    ensures HasErrors(a) == HasErrors(b)
  {
    if HasErrors(a) {
      var i :| 0 <= i < |a| && a[i].severity == Error;
      assert a[i] in multiset(b);
    }
    if HasErrors(b) {
      var i :| 0 <= i < |b| && b[i].severity == Error;
      assert b[i] in multiset(a);
    }
  }

  /** Everything the verdict takes from a receipt besides its entries and its hash. */
  ghost predicate SameHead(a: Fields, b: Fields) {
    && Get(a, "policy") == Get(b, "policy")
    && Get(a, "release_class") == Get(b, "release_class")
    && Get(a, "created_at") == Get(b, "created_at")
    && Get(a, "schema_version") == Get(b, "schema_version")
    && Chain(a) == Chain(b)
    && (Entries(a) == [] <==> Entries(b) == [])
  }

  lemma {:induction false} SamePolicy(a: Fields, b: Fields, valid: nat)
    requires Get(a, "policy") == Get(b, "policy") && Get(a, "release_class") == Get(b, "release_class")
    ensures PolicyIssues(a) == PolicyIssues(b) && MinOrZero(a) == MinOrZero(b)
    ensures RequiredRoles(a) == RequiredRoles(b) && QuorumIssues(a, valid) == QuorumIssues(b, valid)
  {
    assert Policy(a) == Policy(b);
    assert ClassIn(a, {"A"}) == ClassIn(b, {"A"}) && ClassIn(a, {"B", "C"}) == ClassIn(b, {"B", "C"});
  }

  lemma {:induction false} SameFormIssues(env: Env, a: Fields, b: Fields)
    requires SameHead(a, b)
    ensures CreatedTime(env, a) == CreatedTime(env, b) && FormIssues(env, a) == FormIssues(env, b)
  {
    assert ClassIn(a, {"A", "B", "C"}) == ClassIn(b, {"A", "B", "C"});
    assert CreatedAt(env, a) == CreatedAt(env, b);
  }

  lemma {:induction false} SameListIssues(a: Fields, b: Fields)
    requires SameHead(a, b)
    ensures ListIssues(a) == ListIssues(b)
  {
    SamePolicy(a, b, 0);
    assert (Entries(a) == []) == (Entries(b) == []);
  }

  lemma {:induction false} SameHeaderIssues(env: Env, a: Fields, b: Fields, hash: string)
    requires SameHead(a, b)
    ensures HeaderIssues(env, a, hash) == HeaderIssues(env, b, hash)
  {
    SameFormIssues(env, a, b);
    SameListIssues(a, b);
  }

  ghost predicate SameVerification(v: Verification, w: Verification) {
    && multiset(v.issues) == multiset(w.issues)
    && v.status == w.status && v.verified == w.verified
    && v.validSignatures == w.validSignatures && v.requiredSignatures == w.requiredSignatures
    && v.matchedRoles == w.matchedRoles && v.receiptHash == w.receiptHash
  }

  /** Issue lists that differ only in a permuted middle part. */
  lemma {:induction false} SameAround(head: seq<Issue>, p: seq<Issue>, q: seq<Issue>, tail: seq<Issue>)
    requires multiset(p) == multiset(q)
    ensures multiset(head + p + tail) == multiset(head + q + tail)
    ensures HasErrors(head + p + tail) == HasErrors(head + q + tail)
  {
    ErrorsInBag(head + p + tail, head + q + tail);
  }

  lemma {:induction false} SummarizeBag(head: seq<Issue>, tail: seq<Issue>, required: nat, hash: string, t: Tally,
    u: Tally)
    requires Forget(Some(t)) == Forget(Some(u))
    ensures SameVerification(Summarize(head + t.issues + tail, required, hash, t),
                             Summarize(head + u.issues + tail, required, hash, u))
  {
    SameAround(head, t.issues, u.issues, tail);
  }

  lemma {:induction false} ConcludeBag(env: Env, a: Fields, b: Fields, hash: string, t: Tally, u: Tally)
    requires SameHead(a, b) && Forget(Some(t)) == Forget(Some(u))
    ensures SameVerification(Conclude(env, a, hash, t), Conclude(env, b, hash, u))
  {
    var head, tail := LeadingIssues(env, b, hash), TrailingIssues(b, t);
    assert LeadingIssues(env, a, hash) == head by {
      SamePolicy(a, b, 0);
      SameHeaderIssues(env, a, b, hash);
    }
    assert TrailingIssues(a, t) == tail && TrailingIssues(b, u) == tail && MinOrZero(a) == MinOrZero(b) by {
      SamePolicy(a, b, t.valid);
    }
    SummarizeBag(head, tail, MinOrZero(b), hash, t, u);
  }

  lemma {:induction false} JudgeBag(env: Env, a: Fields, b: Fields, registry: Registry, hash: string,
                 t: Option<Tally>, u: Option<Tally>)
    requires SameHead(a, b) && Forget(t) == Forget(u)
    ensures SameUpToIssueOrder(JudgeTally(env, a, registry, hash, t), JudgeTally(env, b, registry, hash, u))
  {
    SameFormIssues(env, a, b);
    if Unhashable(Get(b, "release_class")) || (registry != map[] && (CreatedTime(env, b).Overflow? || t.None?)) {
      assert JudgeTally(env, a, registry, hash, t) == Raised == JudgeTally(env, b, registry, hash, u);
    } else if registry == map[] {
      assert NoRegistry(a) == NoRegistry(b) by { SamePolicy(a, b, 0); }
    } else {
      ConcludeBag(env, a, b, hash, t.value, u.value);
    }
  }

  /** Permuting the signatures list changes nothing but the order of the issues. */
  lemma {:induction false} OrderIrrelevant(env: Env, receipt: Fields, registry: Registry, permuted: seq<Json>)
    requires Get(receipt, "signatures").Arr?
    requires multiset(permuted) == multiset(Entries(receipt))
    ensures SameUpToIssueOrder(Judge(env, Put(receipt, "signatures", Arr(permuted)), registry),
                               Judge(env, receipt, registry))
  {
    var other := Put(receipt, "signatures", Arr(permuted));
    SignaturesUnsigned(receipt, Arr(permuted));
    assert |multiset(permuted)| == |multiset(Entries(receipt))|;
    var a, b := EntryResults(env, other, registry), EntryResults(env, receipt, registry);
    var check := Checker(env, receipt, registry);
    assert a == CheckAll(check, permuted) by { SameChecks(env, other, receipt, registry); }
    CheckAllBag(check, permuted, Entries(receipt));
    EntriesCoherent(env, receipt, registry);
    BagPermutation(a, b);
    ForgetAll(a);
    ForgetAll(b);
    assert ReceiptHash(env.sha, other) == ReceiptHash(env.sha, receipt) by { SameHash(env, other, receipt); }
    JudgeBag(env, other, receipt, registry, ReceiptHash(env.sha, receipt), TallyAll(a), TallyAll(b));
  }

  lemma {:induction false} SameHash(env: Env, a: Fields, b: Fields)
    requires UnsignedBody(a) == UnsignedBody(b)
    ensures ReceiptHash(env.sha, a) == ReceiptHash(env.sha, b) && PayloadText(a) == PayloadText(b)
  {
    assert UnsignedPayload(a) == UnsignedPayload(b);
  }

  /** The check of an entry depends on the receipt through its time and its payload alone. */
  lemma {:induction false} SameChecks(env: Env, a: Fields, b: Fields, registry: Registry)
    requires Get(a, "created_at") == Get(b, "created_at") && UnsignedBody(a) == UnsignedBody(b)
    ensures forall e :: Checker(env, a, registry)(e) == Checker(env, b, registry)(e)
  {
    SameHash(env, a, b);
    assert CreatedAt(env, a) == CreatedAt(env, b);
  }
}
