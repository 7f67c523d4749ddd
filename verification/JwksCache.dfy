/**
  The cache of token verification keys: rebuilt from every fetched key set, refreshed in the background and
  once per validation whose key is missing. Key parsing is part of a fetched key, and cryptographic decoding
  is an oracle; provider answers are inputs.
*/
module JwksCache {
  import opened Core
  import OidcSession

  datatype Algorithm =
    | HS256 | HS384 | HS512
    | ES256 | ES384
    | RS256 | RS384 | RS512
    | PS256 | PS384 | PS512
    | EdDSA
    | NotForSigning

  /** A published key; `material` is absent when it does not parse. */
  datatype Jwk = Jwk(kid: Option<string>, algorithm: Option<Algorithm>, material: Option<nat>)

  /** A decoding key with its validation parameters; without audiences the `aud` claim is not checked. */
  datatype CachedKey = CachedKey(material: nat, algorithm: Algorithm, audiences: seq<string>, issuer: string)

  datatype Provider = Provider(issuer: string, audiences: seq<string>, isProduction: bool)

  type Keys = map<string, CachedKey>

  /** `header` is absent when it does not decode; inside it, the key id may be missing. */
  datatype Token = Token(header: Option<Option<string>>, text: string)

  /** Whether a token decodes under a key with full validation, and with expiry and audience relaxed. */
  datatype Oracle = Oracle(decodes: (Token, CachedKey) -> bool, verifies: (Token, CachedKey) -> bool)

  function KeyId(token: Token): Option<string> {
    if token.header.Some? then token.header.value else None
  }

  // ----- Building the cache -----

  function SigningAlgorithm(jwk: Jwk): Algorithm {
    if jwk.algorithm.Some? && jwk.algorithm.value != NotForSigning then jwk.algorithm.value else RS256
  }

  predicate Usable(jwk: Jwk) {
    jwk.kid.Some? && jwk.material.Some?
  }

  function KeyOf(cfg: Provider, jwk: Jwk): CachedKey
    requires Usable(jwk)
  {
    CachedKey(jwk.material.value, SigningAlgorithm(jwk), cfg.audiences, cfg.issuer)
  }

  predicate FailsClosed(cfg: Provider) {
    cfg.audiences == [] && cfg.isProduction
  }

  /** `key` is what the last usable published key with this id yields. */
  ghost predicate LastUsable(cfg: Provider, jwks: seq<Jwk>, kid: string, key: CachedKey) {
    exists i :: 0 <= i < |jwks| && Usable(jwks[i]) && jwks[i].kid == Some(kid) && key == KeyOf(cfg, jwks[i])
      && forall j :: i < j < |jwks| && Usable(jwks[j]) ==> jwks[j].kid != Some(kid)
  }

  ghost predicate IsCacheOf(cfg: Provider, jwks: seq<Jwk>, keys: Keys) {
    && (forall kid :: kid in keys ==> LastUsable(cfg, jwks, kid, keys[kid]))
    && forall i :: 0 <= i < |jwks| && Usable(jwks[i]) ==> jwks[i].kid.value in keys
  }

  /** The cache built from a fetched key set: none at all in production without audiences. */
  method BuildKeys(cfg: Provider, jwks: seq<Jwk>) returns (keys: Keys)
    ensures cfg.isProduction && cfg.audiences == [] ==> keys == map[]
    ensures !cfg.isProduction || cfg.audiences != [] ==>
              forall kid :: kid in keys <==>
                exists i :: 0 <= i < |jwks| && jwks[i].kid == Some(kid) && jwks[i].material.Some?
    ensures forall kid :: kid in keys ==> LastUsable(cfg, jwks, kid, keys[kid])
    ensures keys == Built(cfg, jwks)
  {
    keys := map[];
    if cfg.audiences == [] {
      if cfg.isProduction {
        return;
      }
    }
    for i := 0 to |jwks|
      invariant IsCacheOf(cfg, jwks[..i], keys)
    {
      var jwk := jwks[i];
      ghost var before := keys;
      if jwk.kid.Some? && jwk.material.Some? {
        keys := keys[jwk.kid.value := CachedKey(jwk.material.value, SigningAlgorithm(jwk), cfg.audiences, cfg.issuer)];
      }
      CacheGrows(cfg, jwks[..i], before, jwk);
      assert jwks[..i + 1] == jwks[..i] + [jwk];
    }
    assert jwks[..|jwks|] == jwks;
    BuiltIsCache(cfg, jwks);
    CacheIsUnique(cfg, jwks, keys, Built(cfg, jwks));
    CacheHoldsPublished(cfg, jwks, keys);
  }

  /** The cache as a function of the key set, for the runs below. */
  function Built(cfg: Provider, jwks: seq<Jwk>): Keys {
    if FailsClosed(cfg) then map[] else Collected(cfg, jwks)
  }

  function Collected(cfg: Provider, jwks: seq<Jwk>): Keys {
    if jwks == [] then map[]
    else if Usable(Last(jwks)) then Collected(cfg, Front(jwks))[Last(jwks).kid.value := KeyOf(cfg, Last(jwks))]
    else Collected(cfg, Front(jwks))
  }

  lemma CacheGrows(cfg: Provider, jwks: seq<Jwk>, keys: Keys, jwk: Jwk)
    requires IsCacheOf(cfg, jwks, keys)
    ensures IsCacheOf(cfg, jwks + [jwk], if Usable(jwk) then keys[jwk.kid.value := KeyOf(cfg, jwk)] else keys)
  {
    var grown := if Usable(jwk) then keys[jwk.kid.value := KeyOf(cfg, jwk)] else keys;
    var all := jwks + [jwk];
    forall kid | kid in grown ensures LastUsable(cfg, all, kid, grown[kid]) {
      if Usable(jwk) && jwk.kid == Some(kid) {
        assert all[|jwks|] == jwk;
      } else {
        var i :| 0 <= i < |jwks| && Usable(jwks[i]) && jwks[i].kid == Some(kid) && keys[kid] == KeyOf(cfg, jwks[i])
          && forall j :: i < j < |jwks| && Usable(jwks[j]) ==> jwks[j].kid != Some(kid);
        assert all[i] == jwks[i];
      }
    }
  }

  lemma {:induction false} BuiltIsCache(cfg: Provider, jwks: seq<Jwk>)
    ensures IsCacheOf(cfg, jwks, Collected(cfg, jwks))
  {
    if jwks != [] {
      BuiltIsCache(cfg, Front(jwks));
      CacheGrows(cfg, Front(jwks), Collected(cfg, Front(jwks)), Last(jwks));
      assert Front(jwks) + [Last(jwks)] == jwks;
    }
  }

  lemma CacheIsUnique(cfg: Provider, jwks: seq<Jwk>, a: Keys, b: Keys)
    requires IsCacheOf(cfg, jwks, a) && IsCacheOf(cfg, jwks, b)
    ensures a == b
  {
    forall kid | kid in a ensures kid in b && a[kid] == b[kid] {
      assert LastUsable(cfg, jwks, kid, a[kid]);
    }
    forall kid | kid in b ensures kid in a {
      assert LastUsable(cfg, jwks, kid, b[kid]);
    }
  }

  lemma CacheHoldsPublished(cfg: Provider, jwks: seq<Jwk>, keys: Keys)
    requires IsCacheOf(cfg, jwks, keys)
    ensures forall kid :: kid in keys <==>
              exists i :: 0 <= i < |jwks| && jwks[i].kid == Some(kid) && jwks[i].material.Some?
  {
    forall kid | kid in keys ensures exists i :: 0 <= i < |jwks| && jwks[i].kid == Some(kid) && jwks[i].material.Some? {
      assert LastUsable(cfg, jwks, kid, keys[kid]);
    }
  }

  // ----- One validation at a time -----

  datatype Verdict = Accepted(key: CachedKey) | KeyNotFound | Rejected

  function TryDecode(oracle: Oracle, keys: Keys, token: Token, kid: string): Verdict {
    if kid !in keys then KeyNotFound else if oracle.decodes(token, keys[kid]) then Accepted(keys[kid]) else Rejected
  }

  class JwksProvider {
    const config: Provider
    var keys: Keys

    constructor (config: Provider, startup: seq<Jwk>)
      ensures this.config == config && keys == Built(config, startup)
    {
      this.config := config;
      new;
      keys := BuildKeys(config, startup);
    }

    /** A failed fetch leaves the cache alone. */
    method Refresh(fetched: Option<seq<Jwk>>) returns (ok: bool)
      modifies this
      ensures ok == fetched.Some?
      ensures keys == if ok then Built(config, fetched.value) else old(keys)
    {
      if fetched.None? {
        return false;
      }
      keys := BuildKeys(config, fetched.value);
      return true;
    }

    /** A missing key id is the only reason to refresh, and it is not retried. */
    method ValidateToken(oracle: Oracle, token: Token, fetched: Option<seq<Jwk>>) returns (v: Verdict, refreshed: bool)
      modifies this
      ensures refreshed <==> KeyId(token).Some? && KeyId(token).value !in old(keys)
      ensures keys == if refreshed && fetched.Some? then Built(config, fetched.value) else old(keys)
      ensures var kid := KeyId(token);
              match v {
                case Accepted(key) =>
                  kid.Some? && kid.value in keys && key == keys[kid.value] && oracle.decodes(token, key)
                case KeyNotFound => refreshed && fetched.Some? && kid.value !in keys
                case Rejected =>
                  || kid.None? || (refreshed && fetched.None?)
                  || (kid.value in keys && !oracle.decodes(token, keys[kid.value]))
              }
    {
      if KeyId(token).None? {
        return Rejected, false;
      }
      var kid := KeyId(token).value;
      v := TryDecode(oracle, keys, token, kid);
      if v != KeyNotFound {
        return v, false;
      }
      var ok := Refresh(fetched);
      if !ok {
        return Rejected, true;
      }
      return TryDecode(oracle, keys, token, kid), true;
    }

    /**
      Only a token without a usable header or one that its own key refutes is invalid; a missing key never makes
      it so.
    */
    method VerifySignature(oracle: Oracle, token: Token, fetched: Option<seq<Jwk>>)
      returns (c: OidcSession.SignatureCheck)
      modifies this
      ensures KeyId(token).None? ==> c == OidcSession.Invalid && keys == old(keys)
      ensures KeyId(token).Some? ==>
                var kid := KeyId(token).value;
                && keys == (if kid !in old(keys) && fetched.Some? then Built(config, fetched.value) else old(keys))
                && (c == OidcSession.Unverifiable <==> kid !in keys)
                && (c == OidcSession.Valid <==> kid in keys && oracle.verifies(token, keys[kid]))
    {
      if KeyId(token).None? {
        return OidcSession.Invalid;
      }
      var kid := KeyId(token).value;
      if kid !in keys {
        var ok := Refresh(fetched);
        if !ok {
          return OidcSession.Unverifiable;
        }
      }
      if kid !in keys {
        return OidcSession.Unverifiable;
      }
      return if oracle.verifies(token, keys[kid]) then OidcSession.Valid else OidcSession.Invalid;
    }
  }

  // ----- Validations interleaved with each other and with background refreshes -----

  /** At `Installing` the key set has been received and the lock of the cache is still awaited. */
  datatype Pc =
    | Idle
    | Looking(token: Token, kid: string)
    | Missed(token: Token, kid: string)
    | Installing(token: Token, kid: string, jwks: seq<Jwk>)
    | Retrying(token: Token, kid: string)
    | Decided(token: Token, verdict: Verdict)

  /**
    `received` and `installed` list the key sets in the order they arrived and the order they went into the
    cache, the startup one first; `background` is what the background task has received and not yet installed.
  */
  datatype System = System(keys: Keys, received: seq<seq<Jwk>>, installed: seq<seq<Jwk>>,
                           background: Option<seq<Jwk>>, pcs: map<nat, Pc>)

  /** `answer` is what the provider answers if the step fetches. */
  datatype Action =
    | Begin(p: nat, token: Token)
    | Advance(p: nat, answer: Option<seq<Jwk>>)
    | Background(answer: Option<seq<Jwk>>)

  function At(sys: System, p: nat): Pc {
    if p in sys.pcs then sys.pcs[p] else Idle
  }

  predicate Busy(pc: Pc) {
    pc.Looking? || pc.Missed? || pc.Installing? || pc.Retrying?
  }

  function Received(sys: System, jwks: seq<Jwk>): System {
    sys.(received := sys.received + [jwks])
  }

  function Installed(cfg: Provider, sys: System, jwks: seq<Jwk>): System {
    sys.(keys := Built(cfg, jwks), installed := sys.installed + [jwks])
  }

  function Step(cfg: Provider, oracle: Oracle, sys: System, a: Action): System {
    match a
    case Begin(p, token) =>
      if Busy(At(sys, p)) then sys
      else if KeyId(token).None? then sys.(pcs := sys.pcs[p := Decided(token, Rejected)])
      else sys.(pcs := sys.pcs[p := Looking(token, KeyId(token).value)])
    case Background(answer) =>
      if sys.background.Some? then Installed(cfg, sys, sys.background.value).(background := None)
      else if answer.Some? then Received(sys, answer.value).(background := answer)
      else sys
    case Advance(p, answer) =>
      match At(sys, p)
      case Looking(token, kid) =>
        var v := TryDecode(oracle, sys.keys, token, kid);
        sys.(pcs := sys.pcs[p := if v.KeyNotFound? then Missed(token, kid) else Decided(token, v)])
      case Missed(token, kid) =>
        if answer.None? then sys.(pcs := sys.pcs[p := Decided(token, Rejected)])
        else Received(sys, answer.value).(pcs := sys.pcs[p := Installing(token, kid, answer.value)])
      case Installing(token, kid, jwks) =>
        Installed(cfg, sys, jwks).(pcs := sys.pcs[p := Retrying(token, kid)])
      case Retrying(token, kid) =>
        sys.(pcs := sys.pcs[p := Decided(token, TryDecode(oracle, sys.keys, token, kid))])
      case _ => sys
  }

  function After(cfg: Provider, oracle: Oracle, startup: seq<Jwk>, run: seq<Action>): System {
    if run == [] then System(Built(cfg, startup), [startup], [startup], None, map[])
    else Step(cfg, oracle, After(cfg, oracle, startup, Front(run)), Last(run))
  }

  /** Refreshes made by the validation that `p` is in, or has last finished. */
  function RefreshesOf(cfg: Provider, oracle: Oracle, startup: seq<Jwk>, run: seq<Action>, p: nat): nat {
    if run == [] then 0
    else
      var before := After(cfg, oracle, startup, Front(run));
      if Last(run).Begin? && Last(run).p == p && !Busy(At(before, p)) then 0
      else RefreshesOf(cfg, oracle, startup, Front(run), p)
           + (if Last(run).Advance? && Last(run).p == p && At(before, p).Missed? then 1 else 0)
  }

  /** A key that some key set installed so far yields under this id. */
  ghost predicate FromInstalled(cfg: Provider, sys: System, kid: string, key: CachedKey) {
    exists i :: 0 <= i < |sys.installed|
      && kid in Built(cfg, sys.installed[i]) && Built(cfg, sys.installed[i])[kid] == key
  }

  /** Some key set installed so far has no key of this id under which the token decodes. */
  ghost predicate RefusedByInstalled(cfg: Provider, oracle: Oracle, sys: System, token: Token, kid: string) {
    exists i :: 0 <= i < |sys.installed|
      && (kid in Built(cfg, sys.installed[i]) ==> !oracle.decodes(token, Built(cfg, sys.installed[i])[kid]))
  }

  /** What may be said of a caller's program point, whatever it is. */
  ghost predicate Proper(cfg: Provider, oracle: Oracle, sys: System, pc: Pc) {
    && (Busy(pc) ==> KeyId(pc.token) == Some(pc.kid))
    && (pc.Installing? ==> pc.jwks in sys.received)
    && (pc.Decided? && pc.verdict.Accepted? ==>
         && KeyId(pc.token).Some? && oracle.decodes(pc.token, pc.verdict.key)
         && FromInstalled(cfg, sys, KeyId(pc.token).value, pc.verdict.key))
    && (pc.Missed? || pc.Installing? || pc.Retrying? || (pc.Decided? && !pc.verdict.Accepted? && KeyId(pc.token).Some?)
        ==> RefusedByInstalled(cfg, oracle, sys, pc.token, KeyId(pc.token).value))
  }

  /** Installing another set only adds to what may be said of a program point, and receiving one changes nothing. */
  lemma ProperLater(cfg: Provider, oracle: Oracle, sys: System, later: System, pc: Pc)
    requires Proper(cfg, oracle, sys, pc)
    requires sys.installed <= later.installed && forall jwks :: jwks in sys.received ==> jwks in later.received
    ensures Proper(cfg, oracle, later, pc)
  {
    assert forall i :: 0 <= i < |sys.installed| ==> later.installed[i] == sys.installed[i];
    if pc.Decided? && pc.verdict.Accepted? {
      var kid, key := KeyId(pc.token).value, pc.verdict.key;
      var i :| 0 <= i < |sys.installed|
        && kid in Built(cfg, sys.installed[i]) && Built(cfg, sys.installed[i])[kid] == key;
      assert kid in Built(cfg, later.installed[i]);
    } else if !pc.Idle? && !pc.Looking? && KeyId(pc.token).Some? {
      var kid := KeyId(pc.token).value;
      var i :| 0 <= i < |sys.installed|
        && (kid in Built(cfg, sys.installed[i]) ==> !oracle.decodes(pc.token, Built(cfg, sys.installed[i])[kid]));
      assert kid in Built(cfg, later.installed[i]) ==> !oracle.decodes(pc.token, Built(cfg, later.installed[i])[kid]);
    }
  }

  ghost predicate Inv(cfg: Provider, oracle: Oracle, sys: System) {
    && sys.received != [] && sys.installed != [] && sys.keys == Built(cfg, Last(sys.installed))
    && (forall i :: 0 <= i < |sys.installed| ==> sys.installed[i] in sys.received)
    && (sys.background.Some? ==> sys.background.value in sys.received)
    && forall p :: p in sys.pcs ==> Proper(cfg, oracle, sys, sys.pcs[p])
  }

  lemma ReceivedKeepsInv(cfg: Provider, oracle: Oracle, sys: System, jwks: seq<Jwk>)
    requires Inv(cfg, oracle, sys)
    ensures Inv(cfg, oracle, Received(sys, jwks)) && jwks in Received(sys, jwks).received
  {
    var t := Received(sys, jwks);
    forall p | p in t.pcs ensures Proper(cfg, oracle, t, t.pcs[p]) {
      ProperLater(cfg, oracle, sys, t, sys.pcs[p]);
    }
  }

  lemma InstalledKeepsInv(cfg: Provider, oracle: Oracle, sys: System, jwks: seq<Jwk>)
    requires Inv(cfg, oracle, sys) && jwks in sys.received
    ensures Inv(cfg, oracle, Installed(cfg, sys, jwks))
  {
    var t := Installed(cfg, sys, jwks);
    forall p | p in t.pcs ensures Proper(cfg, oracle, t, t.pcs[p]) {
      ProperLater(cfg, oracle, sys, t, sys.pcs[p]);
    }
  }

  lemma DecodeIsProper(cfg: Provider, oracle: Oracle, sys: System, token: Token, kid: string)
    requires Inv(cfg, oracle, sys) && KeyId(token) == Some(kid)
    ensures var v := TryDecode(oracle, sys.keys, token, kid);
            && Proper(cfg, oracle, sys, Decided(token, v))
            && (v.KeyNotFound? ==> Proper(cfg, oracle, sys, Missed(token, kid)))
  {
    assert sys.keys == Built(cfg, sys.installed[|sys.installed| - 1]);
  }

  lemma MoveKeepsInv(cfg: Provider, oracle: Oracle, sys: System, p: nat, pc: Pc)
    requires Inv(cfg, oracle, sys) && Proper(cfg, oracle, sys, pc)
    ensures Inv(cfg, oracle, sys.(pcs := sys.pcs[p := pc]))
  {
    var t := sys.(pcs := sys.pcs[p := pc]);
    forall q | q in t.pcs ensures Proper(cfg, oracle, t, t.pcs[q]) {
      ProperLater(cfg, oracle, sys, t, t.pcs[q]);
    }
  }

  lemma StepKeepsInv(cfg: Provider, oracle: Oracle, sys: System, a: Action)
    requires Inv(cfg, oracle, sys)
    ensures Inv(cfg, oracle, Step(cfg, oracle, sys, a))
  {
    match a
    case Begin(p, token) =>
      if !Busy(At(sys, p)) {
        MoveKeepsInv(cfg, oracle, sys, p,
                     if KeyId(token).None? then Decided(token, Rejected) else Looking(token, KeyId(token).value));
      }
    case Background(answer) =>
      if sys.background.Some? {
        InstalledKeepsInv(cfg, oracle, sys, sys.background.value);
      } else if answer.Some? {
        ReceivedKeepsInv(cfg, oracle, sys, answer.value);
      }
    case Advance(p, answer) =>
      match At(sys, p)
      case Looking(token, kid) =>
        DecodeIsProper(cfg, oracle, sys, token, kid);
        var v := TryDecode(oracle, sys.keys, token, kid);
        MoveKeepsInv(cfg, oracle, sys, p, if v.KeyNotFound? then Missed(token, kid) else Decided(token, v));
      case Missed(token, kid) =>
        if answer.None? {
          MoveKeepsInv(cfg, oracle, sys, p, Decided(token, Rejected));
        } else {
          ReceivedKeepsInv(cfg, oracle, sys, answer.value);
          ProperLater(cfg, oracle, sys, Received(sys, answer.value), sys.pcs[p]);
          MoveKeepsInv(cfg, oracle, Received(sys, answer.value), p, Installing(token, kid, answer.value));
        }
      case Installing(token, kid, jwks) =>
        assert Proper(cfg, oracle, sys, sys.pcs[p]);
        InstalledKeepsInv(cfg, oracle, sys, jwks);
        ProperLater(cfg, oracle, sys, Installed(cfg, sys, jwks), sys.pcs[p]);
        MoveKeepsInv(cfg, oracle, Installed(cfg, sys, jwks), p, Retrying(token, kid));
      case Retrying(token, kid) =>
        DecodeIsProper(cfg, oracle, sys, token, kid);
        MoveKeepsInv(cfg, oracle, sys, p, Decided(token, TryDecode(oracle, sys.keys, token, kid)));
      case _ =>
  }

  lemma {:induction false} EveryRunKeepsInv(cfg: Provider, oracle: Oracle, startup: seq<Jwk>, run: seq<Action>)
    ensures Inv(cfg, oracle, After(cfg, oracle, startup, run))
  {
    if run != [] {
      EveryRunKeepsInv(cfg, oracle, startup, Front(run));
      StepKeepsInv(cfg, oracle, After(cfg, oracle, startup, Front(run)), Last(run));
    }
  }

  /**
    In every interleaving of validations and refreshes the cache is the one built from the key set installed
    last, nothing is installed that was not received, and a token is only accepted if it decodes under a key
    that some installed key set published, usable and last of its kind, with the token's own key id.
  */
  lemma {:induction false} AcceptedTokensHaveProvenance(cfg: Provider, oracle: Oracle, startup: seq<Jwk>,
                                                        run: seq<Action>, p: nat)
    ensures var sys := After(cfg, oracle, startup, run);
            && sys.installed != [] && sys.keys == Built(cfg, Last(sys.installed))
            && (forall i :: 0 <= i < |sys.installed| ==> sys.installed[i] in sys.received)
            && (At(sys, p).Decided? && At(sys, p).verdict.Accepted? ==>
                 && KeyId(At(sys, p).token).Some?
                 && oracle.decodes(At(sys, p).token, At(sys, p).verdict.key)
                 && exists i :: 0 <= i < |sys.installed|
                      && LastUsable(cfg, sys.installed[i], KeyId(At(sys, p).token).value, At(sys, p).verdict.key))
  {
    EveryRunKeepsInv(cfg, oracle, startup, run);
    var sys := After(cfg, oracle, startup, run);
    if At(sys, p).Decided? && At(sys, p).verdict.Accepted? {
      var kid, key := KeyId(At(sys, p).token).value, At(sys, p).verdict.key;
      assert FromInstalled(cfg, sys, kid, key);
      var i :| 0 <= i < |sys.installed|
        && kid in Built(cfg, sys.installed[i]) && Built(cfg, sys.installed[i])[kid] == key;
      BuiltIsCache(cfg, sys.installed[i]);
    }
  }

  /**
    A token is refused for a reason, in every interleaving: if every key set installed so far has a key of its id
    under which it decodes, whoever has finished validating it has accepted it.
  */
  lemma {:induction false} GoodTokensAreAccepted(cfg: Provider, oracle: Oracle, startup: seq<Jwk>, run: seq<Action>,
                                                 p: nat, kid: string)
    requires At(After(cfg, oracle, startup, run), p).Decided?
    requires var sys := After(cfg, oracle, startup, run);
             && At(sys, p).token.header == Some(Some(kid))
             && forall i :: 0 <= i < |sys.installed| ==>
                  exists key :: LastUsable(cfg, sys.installed[i], kid, key) && oracle.decodes(At(sys, p).token, key)
    requires !cfg.isProduction || cfg.audiences != []
    ensures At(After(cfg, oracle, startup, run), p).verdict.Accepted?
  {
    EveryRunKeepsInv(cfg, oracle, startup, run);
    var sys := After(cfg, oracle, startup, run);
    var token := At(sys, p).token;
    forall i | 0 <= i < |sys.installed|
      ensures kid in Built(cfg, sys.installed[i]) && oracle.decodes(token, Built(cfg, sys.installed[i])[kid])
    {
      var key :| LastUsable(cfg, sys.installed[i], kid, key) && oracle.decodes(token, key);
      BuiltIsCache(cfg, sys.installed[i]);
      assert LastUsable(cfg, sys.installed[i], kid, Built(cfg, sys.installed[i])[kid]);
    }
    assert Proper(cfg, oracle, sys, sys.pcs[p]);
  }

  /**
    Exactly which key ids are cached, in every interleaving: those of the key set installed last that come with
    parsed material, and none in production without audiences.
  */
  lemma {:induction false} CachedIff(cfg: Provider, oracle: Oracle, startup: seq<Jwk>, run: seq<Action>, kid: string)
    ensures var sys := After(cfg, oracle, startup, run);
            && sys.installed != []
            && (kid in sys.keys <==>
                 && !(cfg.isProduction && cfg.audiences == [])
                 && exists i :: 0 <= i < |Last(sys.installed)|
                      && Last(sys.installed)[i].kid == Some(kid) && Last(sys.installed)[i].material.Some?)
  {
    EveryRunKeepsInv(cfg, oracle, startup, run);
    var jwks := Last(After(cfg, oracle, startup, run).installed);
    BuiltIsCache(cfg, jwks);
    CacheHoldsPublished(cfg, jwks, Collected(cfg, jwks));
  }

  // ----- Which key set ends up cached -----

  /** Nobody has received a key set that is not yet installed. */
  ghost predicate NothingPending(sys: System) {
    sys.background.None? && forall p :: p in sys.pcs ==> !sys.pcs[p].Installing?
  }

  /** No key set of the run is received while another one awaits its installation. */
  ghost predicate OneRefreshAtATime(cfg: Provider, oracle: Oracle, startup: seq<Jwk>, run: seq<Action>) {
    run != [] ==>
      && OneRefreshAtATime(cfg, oracle, startup, Front(run))
      && var before := After(cfg, oracle, startup, Front(run));
         Step(cfg, oracle, before, Last(run)).received != before.received ==> NothingPending(before)
  }

  /** What is pending is the newest key set, in one place only; with nothing pending it has been installed. */
  ghost predicate UpToDate(sys: System) {
    && sys.received != [] && sys.installed != []
    && (NothingPending(sys) ==> Last(sys.installed) == Last(sys.received))
    && (sys.background.Some? ==> sys.background.value == Last(sys.received))
    && forall p :: p in sys.pcs && sys.pcs[p].Installing? ==>
         && sys.background.None? && sys.pcs[p].jwks == Last(sys.received)
         && forall q :: q in sys.pcs && sys.pcs[q].Installing? ==> p == q
  }

  lemma OtherMove(sys: System, p: nat, pc: Pc)
    requires UpToDate(sys) && !At(sys, p).Installing? && !pc.Installing?
    ensures UpToDate(sys.(pcs := sys.pcs[p := pc]))
  {
    var t := sys.(pcs := sys.pcs[p := pc]);
    assert forall q :: q in sys.pcs && sys.pcs[q].Installing? ==> q in t.pcs && t.pcs[q] == sys.pcs[q];
  }

  lemma {:induction false} StepKeepsUpToDate(cfg: Provider, oracle: Oracle, sys: System, a: Action)
    requires UpToDate(sys)
    requires Step(cfg, oracle, sys, a).received != sys.received ==> NothingPending(sys)
    ensures UpToDate(Step(cfg, oracle, sys, a))
  {
    var t := Step(cfg, oracle, sys, a);
    match a
    case Begin(p, token) => if t != sys { OtherMove(sys, p, t.pcs[p]); }
    case Background(answer) =>
      if sys.background.None? && answer.Some? {
        assert t.received != sys.received by { assert |t.received| == |sys.received| + 1; }
      }
    case Advance(p, answer) =>
      match At(sys, p)
      case Missed(_, _) =>
        if answer.None? {
          OtherMove(sys, p, t.pcs[p]);
        } else {
          assert t.received != sys.received by { assert |t.received| == |sys.received| + 1; }
          assert p in t.pcs && t.pcs[p].Installing?;
        }
      case Looking(_, _) => OtherMove(sys, p, t.pcs[p]);
      case Retrying(_, _) => OtherMove(sys, p, t.pcs[p]);
      case _ =>
  }

  /** With one refresh at a time, the cache is that of the newest key set received as soon as that set is installed. */
  lemma {:induction false} OrderlyRefreshesCacheTheNewest(cfg: Provider, oracle: Oracle, startup: seq<Jwk>,
                                                          run: seq<Action>)
    requires OneRefreshAtATime(cfg, oracle, startup, run)
    ensures var sys := After(cfg, oracle, startup, run);
            UpToDate(sys) && (NothingPending(sys) ==> sys.keys == Built(cfg, Last(sys.received)))
  {
    EveryRunKeepsInv(cfg, oracle, startup, run);
    if run != [] {
      OrderlyRefreshesCacheTheNewest(cfg, oracle, startup, Front(run));
      StepKeepsUpToDate(cfg, oracle, After(cfg, oracle, startup, Front(run)), Last(run));
    }
  }

  lemma AfterOne(cfg: Provider, oracle: Oracle, startup: seq<Jwk>, run: seq<Action>, a: Action)
    ensures After(cfg, oracle, startup, run + [a]) == Step(cfg, oracle, After(cfg, oracle, startup, run), a)
  {
    assert Front(run + [a]) == run;
  }

  /**
    The condition is needed: the lock of the cache is only awaited once a set has been received, so two
    refreshes can install in the other order, and the older set stays cached with nothing pending.
  */
  lemma OlderSetCanStayCached(cfg: Provider, oracle: Oracle, startup: seq<Jwk>, token: Token, older: seq<Jwk>,
                              newer: seq<Jwk>)
    requires KeyId(token).Some? && KeyId(token).value !in Built(cfg, startup)
    ensures exists run :: var sys := After(cfg, oracle, startup, run);
              sys.received == [startup, older, newer] && NothingPending(sys) && sys.keys == Built(cfg, older)
  {
    var kid := KeyId(token).value;
    var steps := [Begin(0, token), Advance(0, None), Advance(0, Some(older)),
                  Background(Some(newer)), Background(None)];
    var run := steps + [Advance(0, None)];
    assert forall n: nat :: n < 5 ==> steps[..n] + [steps[n]] == steps[..n + 1];
    AfterOne(cfg, oracle, startup, steps[..0], steps[0]);
    AfterOne(cfg, oracle, startup, steps[..1], steps[1]);
    assert At(After(cfg, oracle, startup, steps[..2]), 0) == Missed(token, kid);
    AfterOne(cfg, oracle, startup, steps[..2], steps[2]);
    AfterOne(cfg, oracle, startup, steps[..3], steps[3]);
    AfterOne(cfg, oracle, startup, steps[..4], steps[4]);
    assert steps[..5] == steps;
    var before := After(cfg, oracle, startup, steps);
    assert before.received == [startup, older, newer];
    assert At(before, 0) == Installing(token, kid, older) && before.background == None;
    AfterOne(cfg, oracle, startup, steps, Advance(0, None));
    var sys := After(cfg, oracle, startup, run);
    assert sys.received == [startup, older, newer] && NothingPending(sys) && sys.keys == Built(cfg, older);
  }

  /** With audiences missing in production, nothing is ever cached or accepted, whatever is fetched and when. */
  lemma {:induction false} FailsClosedAcceptsNothing(cfg: Provider, oracle: Oracle, startup: seq<Jwk>,
                                                     run: seq<Action>, p: nat)
    requires cfg.isProduction && cfg.audiences == []
    ensures var sys := After(cfg, oracle, startup, run);
            sys.keys == map[] && !(At(sys, p).Decided? && At(sys, p).verdict.Accepted?)
  {
    EveryRunKeepsInv(cfg, oracle, startup, run);
  }

  /**
    Every key ever cached is the last published with its id and parsed material. It checks the configured issuer
    and audiences under the algorithm published with it, RS256 if none for signing is; in production the
    audiences are never empty.
  */
  lemma {:induction false} CachedKeysAreStrict(cfg: Provider, oracle: Oracle, startup: seq<Jwk>, run: seq<Action>,
                                               kid: string)
    requires kid in After(cfg, oracle, startup, run).keys
    ensures var sys := After(cfg, oracle, startup, run);
            var key := sys.keys[kid];
            && key.issuer == cfg.issuer && key.audiences == cfg.audiences
            && (cfg.isProduction ==> key.audiences != [])
            && key.algorithm != NotForSigning && sys.installed != []
            && var jwks := Last(sys.installed);
               exists i :: 0 <= i < |jwks| && jwks[i].kid == Some(kid) && jwks[i].material == Some(key.material)
                 && (jwks[i].algorithm == Some(key.algorithm)
                     || (key.algorithm == RS256
                         && (jwks[i].algorithm == None || jwks[i].algorithm == Some(NotForSigning))))
                 && forall j :: i < j < |jwks| ==> jwks[j].kid != Some(kid) || jwks[j].material.None?
  {
    EveryRunKeepsInv(cfg, oracle, startup, run);
    var sys := After(cfg, oracle, startup, run);
    var jwks := Last(sys.installed);
    BuiltIsCache(cfg, jwks);
    assert LastUsable(cfg, jwks, kid, sys.keys[kid]);
  }

  /**
    One validation from any reached state, with nobody in between and `answer` to a fetch, on the set installed
    last: it is decided by the cached key of the token's id. Without one, the answer is cached and decides.
  */
  lemma {:induction false} SoloValidation(cfg: Provider, oracle: Oracle, startup: seq<Jwk>, run: seq<Action>, p: nat,
                                          token: Token, kid: string, answer: Option<seq<Jwk>>)
    requires !Busy(At(After(cfg, oracle, startup, run), p)) && token.header == Some(Some(kid))
    ensures var sys := After(cfg, oracle, startup, run);
            var done := After(cfg, oracle, startup, run + [Begin(p, token), Advance(p, answer), Advance(p, answer),
                                                           Advance(p, answer), Advance(p, answer)]);
            && At(done, p).Decided? && At(done, p).token == token
            && (var v := At(done, p).verdict;
                && (v.Accepted? <==> kid in done.keys && oracle.decodes(token, done.keys[kid]))
                && (v.Accepted? ==> v.key == done.keys[kid])
                && (v.KeyNotFound? <==> kid !in done.keys && answer.Some?))
            && done.installed == (if kid in sys.keys || answer.None? then sys.installed
                                  else sys.installed + [answer.value])
  {
    var a := Advance(p, answer);
    var sys := After(cfg, oracle, startup, run);
    var begun := Step(cfg, oracle, sys, Begin(p, token));
    AfterOne(cfg, oracle, startup, run, Begin(p, token));
    AfterFour(cfg, oracle, startup, run + [Begin(p, token)], a);
    assert run + [Begin(p, token), a, a, a, a] == run + [Begin(p, token)] + [a, a, a, a];
    SoloSteps(cfg, oracle, begun, p, token, kid, answer);
  }

  lemma AfterFour(cfg: Provider, oracle: Oracle, startup: seq<Jwk>, run: seq<Action>, a: Action)
    ensures After(cfg, oracle, startup, run + [a, a, a, a])
         == Twice(cfg, oracle, Twice(cfg, oracle, After(cfg, oracle, startup, run), a), a)
  {
    AfterTwo(cfg, oracle, startup, run, a);
    AfterTwo(cfg, oracle, startup, run + [a, a], a);
    assert run + [a, a, a, a] == run + [a, a] + [a, a];
  }

  lemma AfterTwo(cfg: Provider, oracle: Oracle, startup: seq<Jwk>, run: seq<Action>, a: Action)
    ensures After(cfg, oracle, startup, run + [a, a]) == Twice(cfg, oracle, After(cfg, oracle, startup, run), a)
  {
    AfterOne(cfg, oracle, startup, run, a);
    AfterOne(cfg, oracle, startup, run + [a], a);
    assert run + [a, a] == run + [a] + [a];
  }

  function Twice(cfg: Provider, oracle: Oracle, sys: System, a: Action): System {
    Step(cfg, oracle, Step(cfg, oracle, sys, a), a)
  }

  lemma SoloSteps(cfg: Provider, oracle: Oracle, sys: System, p: nat, token: Token, kid: string,
                  answer: Option<seq<Jwk>>)
    requires At(sys, p) == Looking(token, kid)
    ensures var done := Twice(cfg, oracle, Twice(cfg, oracle, sys, Advance(p, answer)), Advance(p, answer));
            && At(done, p) == Decided(token, if answer.None? && kid !in sys.keys then Rejected
                                             else TryDecode(oracle, done.keys, token, kid))
            && done.keys == (if kid in sys.keys || answer.None? then sys.keys else Built(cfg, answer.value))
            && done.installed == (if kid in sys.keys || answer.None? then sys.installed
                                  else sys.installed + [answer.value])
  {
    var a := Advance(p, answer);
    var one := Step(cfg, oracle, sys, a);
    var two := Step(cfg, oracle, one, a);
    var three := Step(cfg, oracle, two, a);
    if kid in sys.keys {
      assert At(one, p).Decided? && two == one && three == one;
    } else {
      assert At(one, p) == Missed(token, kid);
      if answer.None? {
        assert At(two, p) == Decided(token, Rejected) && three == two;
      } else {
        assert At(two, p) == Installing(token, kid, answer.value);
        assert At(three, p) == Retrying(token, kid);
      }
    }
  }

  /** A token without a key id, or without a header that decodes, is rejected at once, whatever is cached. */
  lemma {:induction false} NoKeyIdIsRejected(cfg: Provider, oracle: Oracle, startup: seq<Jwk>, run: seq<Action>, p: nat,
                                             token: Token)
    requires !Busy(At(After(cfg, oracle, startup, run), p))
    requires token.header == None || token.header == Some(None)
    ensures var sys := After(cfg, oracle, startup, run);
            After(cfg, oracle, startup, run + [Begin(p, token)]) == sys.(pcs := sys.pcs[p := Decided(token, Rejected)])
  {
    AfterOne(cfg, oracle, startup, run, Begin(p, token));
  }

  /** Each validation refreshes at most once, and not at all before it has found its key id missing. */
  lemma {:induction false} AtMostOneRefresh(cfg: Provider, oracle: Oracle, startup: seq<Jwk>, run: seq<Action>, p: nat)
    ensures RefreshesOf(cfg, oracle, startup, run, p) <= 1
    ensures var pc := At(After(cfg, oracle, startup, run), p);
            pc.Idle? || pc.Looking? || pc.Missed? ==> RefreshesOf(cfg, oracle, startup, run, p) == 0
  {
    if run != [] {
      AtMostOneRefresh(cfg, oracle, startup, Front(run), p);
    }
  }
}
