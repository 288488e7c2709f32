/** The in-memory trust registry for evidence keys. */
module Trust {
  import opened Wrappers
  import opened Times

  datatype TrustKey = TrustKey(
    keyId: string,
    alg: string,
    publicKey: string,
    role: string,
    status: string,
    notBefore: Option<string>,
    notAfter: Option<string>)

  /** Why a key is not resolved; TimeOverflow is the OverflowError that is no TrustRegistryError. */
  datatype TrustError =
    | UnknownKey | AlgorithmMismatch | NotActive | BadTimestamp | TimeOverflow
    | NotYetValid | NoLongerValid

  type Keys = map<string, TrustKey>

  function ResolveActive(keys: Keys, keyId: string, alg: string): Result<TrustKey, TrustError> {
    if keyId !in keys then Err(UnknownKey)
    else if keys[keyId].alg != alg then Err(AlgorithmMismatch)
    else if keys[keyId].status != "active" then Err(NotActive)
    else Ok(keys[keyId])
  }

  function CheckStart(parse: Clock, bound: Option<string>, issued: int): Option<TrustError> {
    if bound.None? then None
    else
      match parse(bound.value)
      case Malformed => Some(BadTimestamp)
      case Overflow => Some(TimeOverflow)
      case Instant(t) => if issued < t then Some(NotYetValid) else None
  }

  function CheckEnd(parse: Clock, bound: Option<string>, issued: int): Option<TrustError> {
    if bound.None? then None
    else
      match parse(bound.value)
      case Malformed => Some(BadTimestamp)
      case Overflow => Some(TimeOverflow)
      case Instant(t) => if issued > t then Some(NoLongerValid) else None
  }

  function ResolveActiveAt(parse: Clock, keys: Keys, keyId: string, alg: string, issuedAt: string)
    : Result<TrustKey, TrustError>
  {
    var key :- ResolveActive(keys, keyId, alg);
    match parse(issuedAt)
    case Malformed => Err(BadTimestamp)
    case Overflow => Err(TimeOverflow)
    case Instant(issued) =>
      match CheckStart(parse, key.notBefore, issued)
      case Some(error) => Err(error)
      case None =>
        match CheckEnd(parse, key.notAfter, issued)
        case Some(error) => Err(error)
        case None => Ok(key)
  }

  /** Active, of the algorithm, and in its window at the time of issue. */
  ghost predicate ActiveAt(parse: Clock, key: TrustKey, alg: string, issuedAt: string) {
    && key.alg == alg && key.status == "active"
    && exists issued :: parse(issuedAt) == Instant(issued)
         && (key.notBefore.Some? ==> exists t :: parse(key.notBefore.value) == Instant(t) && t <= issued)
         && (key.notAfter.Some? ==> exists t :: parse(key.notAfter.value) == Instant(t) && issued <= t)
  }

  lemma {:induction false} ResolveExactly(parse: Clock, keys: Keys, keyId: string, alg: string, issuedAt: string,
                                          key: TrustKey)
    ensures ResolveActiveAt(parse, keys, keyId, alg, issuedAt) == Ok(key) <==>
            keyId in keys && key == keys[keyId] && ActiveAt(parse, key, alg, issuedAt)
  {
    if keyId in keys && parse(issuedAt).Instant? {
      assert parse(issuedAt) == Instant(parse(issuedAt).at);
    }
  }

  /** The error given is one there is. */
  lemma {:induction false} RefusalHolds(parse: Clock, keys: Keys, keyId: string, alg: string, issuedAt: string)
    requires ResolveActiveAt(parse, keys, keyId, alg, issuedAt).Err?
    ensures match ResolveActiveAt(parse, keys, keyId, alg, issuedAt).error
            case UnknownKey => keyId !in keys
            case AlgorithmMismatch => keyId in keys && keys[keyId].alg != alg
            case NotActive => keyId in keys && keys[keyId].status != "active"
            case BadTimestamp => keyId in keys && Reads(parse, keys[keyId], issuedAt, Malformed)
            case TimeOverflow => keyId in keys && Reads(parse, keys[keyId], issuedAt, Overflow)
            case NotYetValid =>
              keyId in keys && keys[keyId].notBefore.Some?
              && exists t, bound ::
                   parse(issuedAt) == Instant(t) && parse(keys[keyId].notBefore.value) == Instant(bound) && t < bound
            case NoLongerValid =>
              keyId in keys && keys[keyId].notAfter.Some?
              && exists t, bound ::
                   parse(issuedAt) == Instant(t) && parse(keys[keyId].notAfter.value) == Instant(bound) && t > bound
  {
    if parse(issuedAt).Instant? {
      assert parse(issuedAt) == Instant(parse(issuedAt).at);
    }
  }

  /** The clock reads one of the three times so. */
  predicate Reads(parse: Clock, key: TrustKey, issuedAt: string, parsed: Parsed) {
    || parse(issuedAt) == parsed
    || (key.notBefore.Some? && parse(key.notBefore.value) == parsed)
    || (key.notAfter.Some? && parse(key.notAfter.value) == parsed)
  }

  /** {key.key_id: key for key in keys}: the last key of an identifier wins. */
  function KeysOf(list: seq<TrustKey>): Keys {
    if list == [] then map[]
    else KeysOf(list[..|list| - 1])[list[|list| - 1].keyId := list[|list| - 1]]
  }

  class TrustRegistry {
    var keys: Keys

    /** Every key is filed under its own identifier. */
    ghost predicate Valid()
      reads this
    {
      forall k :: k in keys ==> keys[k].keyId == k
    }

    constructor (list: seq<TrustKey>)
      ensures Valid() && keys == KeysOf(list)
    {
      keys := map[];
      new;
      var i := 0;
      while i < |list|
        invariant 0 <= i <= |list| && keys == KeysOf(list[..i]) && Valid()
      {
        assert list[..i + 1][..i] == list[..i];
        keys := keys[list[i].keyId := list[i]];
        i := i + 1;
      }
      assert list[..i] == list;
    }

    /** Adds or replaces one key; every other key resolves as before. */
    method Add(key: TrustKey)
      requires Valid()
      modifies this
      ensures Valid() && keys == old(keys)[key.keyId := key]
      ensures forall k, alg :: k != key.keyId ==> ResolveActive(keys, k, alg) == ResolveActive(old(keys), k, alg)
    {
      keys := keys[key.keyId := key];
    }
  }
}
