/** compute_chain_link: the record payload with its signature value blanked. */
module ChainLink {
  import opened Wrappers
  import opened Json
  import opened Canonical
  import opened Digests
  import Utf8

  function BlankSignature(record: Fields): Fields {
    var signature := Get(record, "signature");
    if signature.Obj? then Put(record, "signature", Obj(Put(signature.fields, "value", Str("")))) else record
  }

  function LinkPayload(record: Fields): string {
    Canonicalize(Obj(BlankSignature(record)))
  }

  function LinkDigest(sha: HashFunction, record: Fields): string {
    HashText(sha, LinkPayload(record))
  }

  // ----- Agreement key by key -----

  ghost predicate AlikeAt(a: Fields, b: Fields, k: string) {
    match (Find(a, k), Find(b, k))
    case (None, None) => true
    case (Some(v), Some(w)) => Alike(v, w)
    case _ => false
  }

  lemma {:induction false} AlikeByKey(a: Fields, b: Fields)
    requires DistinctKeys(a) && DistinctKeys(b)
    ensures Alike(Obj(a), Obj(b)) <==> forall k :: AlikeAt(a, b, k)
  {
    if Alike(Obj(a), Obj(b)) {
      forall k ensures AlikeAt(a, b, k) {
        if HasKey(a, k) {
          var i :| 0 <= i < |a| && a[i].key == k;
          var j :| 0 <= j < |b| && b[j].key == k;
          FindAt(a, i);
          FindAt(b, j);
        }
      }
    }
    if forall k :: AlikeAt(a, b, k) {
      forall k ensures HasKey(a, k) <==> HasKey(b, k) {
        assert AlikeAt(a, b, k);
      }
      forall i, j | 0 <= i < |a| && 0 <= j < |b| && a[i].key == b[j].key
        ensures Alike(a[i].value, b[j].value)
      {
        FindAt(a, i);
        FindAt(b, j);
        assert AlikeAt(a, b, a[i].key);
      }
    }
  }

  lemma {:induction false} PutPlain(fs: Fields, k: string, v: Json)
    requires Plain(Obj(fs)) && Plain(v)
    ensures Plain(Obj(Put(fs, k, v)))
  {
    PutDistinct(fs, k, v);
    forall i | 0 <= i < |Put(fs, k, v)| ensures Plain(Put(fs, k, v)[i].value) {
      PutValue(fs, k, v, i);
    }
  }

  /** Put keeps every other key, and adds its own if it was missing. */
  lemma {:induction false} PutHasKey(fs: Fields, k: string, v: Json, q: string)
    ensures HasKey(Put(fs, k, v), q) <==> q == k || HasKey(fs, q)
  {
    FindAfterPut(fs, k, v, q);
  }

  lemma {:induction false} DistinctTail(f: Field, rest: Fields)
    ensures DistinctKeys([f] + rest) <==> !HasKey(rest, f.key) && DistinctKeys(rest)
  {
    var all := [f] + rest;
    if DistinctKeys(all) {
      forall i, j | 0 <= i < j < |rest| ensures rest[i].key != rest[j].key {
        assert all[i + 1].key != all[j + 1].key;
      }
      forall i | 0 <= i < |rest| ensures rest[i].key != f.key {
        assert all[0].key != all[i + 1].key;
      }
    }
  }

  lemma {:induction false} PutDistinct(fs: Fields, k: string, v: Json)
    requires DistinctKeys(fs)
    ensures DistinctKeys(Put(fs, k, v))
  {
    if fs != [] {
      assert fs == [fs[0]] + fs[1..];
      DistinctTail(fs[0], fs[1..]);
      if fs[0].key == k {
        DistinctTail(Field(k, v), fs[1..]);
      } else {
        PutDistinct(fs[1..], k, v);
        PutHasKey(fs[1..], k, v, fs[0].key);
        DistinctTail(fs[0], Put(fs[1..], k, v));
      }
    }
  }

  /** Every value put back is the new one or an old one. */
  lemma {:induction false} PutValue(fs: Fields, k: string, v: Json, i: nat)
    requires i < |Put(fs, k, v)|
    ensures Put(fs, k, v)[i].value == v || exists j :: 0 <= j < |fs| && fs[j] == Put(fs, k, v)[i]
  {
    if fs != [] && i > 0 {
      if fs[0].key == k {
        assert Put(fs, k, v)[i] == fs[i];
      } else {
        PutValue(fs[1..], k, v, i - 1);
        if j :| 0 <= j < |fs| - 1 && fs[1..][j] == Put(fs[1..], k, v)[i - 1] {
          assert fs[j + 1] == Put(fs, k, v)[i];
        }
      }
    } else if fs != [] && fs[0].key != k {
      assert Put(fs, k, v)[0] == fs[0];
    }
  }

  // ----- Which records share a payload -----

  /** Agreement of the signature members, the value of an object signature left aside. */
  ghost predicate SameSignature(a: Fields, b: Fields) {
    if Get(a, "signature").Obj? && Get(b, "signature").Obj?
    then forall k :: k != "value" ==> AlikeAt(Get(a, "signature").fields, Get(b, "signature").fields, k)
    else AlikeAt(a, b, "signature")
  }

  ghost predicate SameExceptValue(a: Fields, b: Fields) {
    && SameSignature(a, b)
    && forall k :: k != "signature" ==> AlikeAt(a, b, k)
  }

  lemma {:induction false} PlainMember(fs: Fields, k: string)
    requires Plain(Obj(fs))
    ensures Plain(Get(fs, k))
  {
    if HasKey(fs, k) {
      var i :| 0 <= i < |fs| && fs[i].key == k;
      FindAt(fs, i);
    }
  }

  lemma {:induction false} BlankPlain(record: Fields)
    requires Plain(Obj(record))
    ensures Plain(Obj(BlankSignature(record)))
  {
    var signature := Get(record, "signature");
    PlainMember(record, "signature");
    if signature.Obj? {
      PutPlain(signature.fields, "value", Str(""));
      PutPlain(record, "signature", Obj(Put(signature.fields, "value", Str(""))));
    }
  }

  lemma {:induction false} BlankFind(record: Fields, k: string)
    ensures Find(BlankSignature(record), k) ==
            if k == "signature" && Get(record, k).Obj?
            then Some(Obj(Put(Get(record, k).fields, "value", Str(""))))
            else Find(record, k)
  {
    var signature := Get(record, "signature");
    if signature.Obj? {
      FindAfterPut(record, "signature", Obj(Put(signature.fields, "value", Str(""))), k);
    }
  }

  lemma {:induction false} BlankedSignatures(a: Fields, b: Fields)
    requires Plain(Obj(a)) && Plain(Obj(b))
    ensures AlikeAt(BlankSignature(a), BlankSignature(b), "signature") <==> SameSignature(a, b)
  {
    BlankFind(a, "signature");
    BlankFind(b, "signature");
    var s, t := Get(a, "signature"), Get(b, "signature");
    if s.Obj? && t.Obj? {
      PlainMember(a, "signature");
      PlainMember(b, "signature");
      BlankedValues(s.fields, t.fields);
    }
  }

  lemma {:induction false} BlankedValues(s: Fields, t: Fields)
    requires Plain(Obj(s)) && Plain(Obj(t))
    ensures Alike(Obj(Put(s, "value", Str(""))), Obj(Put(t, "value", Str("")))) <==>
            forall k :: k != "value" ==> AlikeAt(s, t, k)
  {
    PutPlain(s, "value", Str(""));
    PutPlain(t, "value", Str(""));
    var p, q := Put(s, "value", Str("")), Put(t, "value", Str(""));
    AlikeByKey(p, q);
    forall k ensures AlikeAt(p, q, k) <==> k == "value" || AlikeAt(s, t, k) {
      FindAfterPut(s, "value", Str(""), k);
      FindAfterPut(t, "value", Str(""), k);
    }
  }

  /** Two records share a link payload exactly when they agree everywhere except signature.value. */
  lemma {:induction false} LinkPayloadExactly(a: Fields, b: Fields)
    requires Plain(Obj(a)) && Plain(Obj(b))
    ensures LinkPayload(a) == LinkPayload(b) <==> SameExceptValue(a, b)
  {
    var p, q := BlankSignature(a), BlankSignature(b);
    BlankPlain(a);
    BlankPlain(b);
    CanonicalExactly(Obj(p), Obj(q));
    AlikeByKey(p, q);
    BlankedSignatures(a, b);
    forall k ensures k != "signature" ==> (AlikeAt(p, q, k) <==> AlikeAt(a, b, k)) {
      BlankFind(a, k);
      BlankFind(b, k);
    }
  }

  /**
   The link payload is JSON of the record with every member as it is, but for an empty value in its
   signature.
   */
  lemma {:induction false} LinkPayloadReads(record: Fields) returns (fs: Fields)
    requires Plain(Obj(record))
    ensures Loads(LinkPayload(record)) == Some(Obj(fs))
    ensures forall k :: k != "signature" ==> AlikeAt(record, fs, k)
    ensures !Get(record, "signature").Obj? ==> AlikeAt(record, fs, "signature")
    ensures Get(record, "signature").Obj? ==>
              && Get(fs, "signature").Obj? && Get(Get(fs, "signature").fields, "value") == Str("")
              && forall k :: k != "value" ==> AlikeAt(Get(record, "signature").fields, Get(fs, "signature").fields, k)
  {
    var blanked := BlankSignature(record);
    BlankPlain(record);
    CanonicalInverse(Obj(blanked));
    SortDeepShape(Obj(blanked));
    fs := SortDeep(Obj(blanked)).fields;
    AlikeByKey(blanked, fs);
    forall k ensures k != "signature" ==> AlikeAt(record, fs, k) {
      BlankFind(record, k);
      assert AlikeAt(blanked, fs, k);
    }
    BlankFind(record, "signature");
    assert AlikeAt(blanked, fs, "signature");
    if Get(record, "signature").Obj? {
      PlainMember(record, "signature");
      PlainMember(fs, "signature");
      BlankedMembers(Get(record, "signature").fields, Get(fs, "signature").fields);
    }
  }

  lemma {:induction false} BlankedMembers(s: Fields, t: Fields)
    requires Plain(Obj(s)) && Plain(Obj(t)) && Alike(Obj(Put(s, "value", Str(""))), Obj(t))
    ensures Get(t, "value") == Str("") && forall k :: k != "value" ==> AlikeAt(s, t, k)
  {
    PutPlain(s, "value", Str(""));
    AlikeByKey(Put(s, "value", Str("")), t);
    forall k ensures if k == "value" then Get(t, k) == Str("") else AlikeAt(s, t, k) {
      FindAfterPut(s, "value", Str(""), k);
      assert AlikeAt(Put(s, "value", Str("")), t, k);
    }
  }

  /** Equal link digests mean agreement except for signature.value, or a SHA-256 collision. */
  lemma {:induction false} LinkDigestBinds(sha: HashFunction, a: Fields, b: Fields)
    requires Plain(Obj(a)) && Plain(Obj(b))
    requires LinkDigest(sha, a) == LinkDigest(sha, b)
    ensures var p, q := Utf8.Encode(LinkPayload(a)), Utf8.Encode(LinkPayload(b));
            SameExceptValue(a, b) || (p != q && sha(p) == sha(q))
  {
    LinkPayloadExactly(a, b);
    HashTextBinds(sha, LinkPayload(a), LinkPayload(b));
  }

  /** Signing a record afterwards never moves it: the link ignores the signature value. */
  lemma {:induction false} LinkIgnoresValue(record: Fields, value: Json)
    requires Get(record, "signature").Obj?
    ensures LinkPayload(Put(record, "signature", Obj(Put(Get(record, "signature").fields, "value", value))))
         == LinkPayload(record)
  {
    var s := Get(record, "signature").fields;
    FindAfterPut(record, "signature", Obj(Put(s, "value", value)), "signature");
    PutTwice(s, "value", value, Str(""));
    PutTwice(record, "signature", Obj(Put(s, "value", value)), Obj(Put(s, "value", Str(""))));
  }
}
