/**
 The A2A authentication state: credential checks, the login guard and the table of issued tokens.

 Texts are byte sequences; the text of a new token is an uninterpreted function of the agent and the
 second it is issued in.
 */
module AuthState {
  import opened Sha256Spec
  import opened Signatures
  import opened Lockout

  const MAX_TOKENS: nat := 256
  const AGENT_ID_LENGTH: nat := 35
  const DEFAULT_FAILURES: nat := 5
  const DEFAULT_TTL: nat := 3600

  datatype AuthMethod = NoAuth | ApiKey | HmacSha256 | JwtBearer

  datatype Config = Config(authMethod: AuthMethod, secret: seq<Byte>, maxFailed: int, ttl: nat)

  /** The defaults that initialisation fills in. */
  function Normalised(c: Config): (r: Config)
    ensures r.maxFailed > 0 && r.ttl > 0
  {
    c.(maxFailed := if c.maxFailed <= 0 then DEFAULT_FAILURES else c.maxFailed,
    ttl := if c.ttl == 0 then DEFAULT_TTL else c.ttl)
  }

  /** Without a limit or a lifetime, five failures and an hour. */
  lemma Defaults(c: Config)
    ensures c.maxFailed <= 0 ==> Normalised(c).maxFailed == 5
    ensures c.maxFailed > 0 ==> Normalised(c).maxFailed == c.maxFailed
    ensures Normalised(c).ttl == if c.ttl == 0 then 3600 else c.ttl
    ensures Normalised(c).secret == c.secret && Normalised(c).authMethod == c.authMethod
  {
  }

  // ---------------------------------------------------------------- credentials

  /** Which credentials an agent may present. */
  ghost predicate CredentialOk(c: Config, agentId: seq<Byte>, credential: seq<Byte>) {
    match c.authMethod
    case ApiKey => credential == c.secret
    case HmacSha256 => 1 <= |c.secret| <= 64 && credential == Hex(Hmac(c.secret, agentId))
    case NoAuth => true
    case JwtBearer => true
  }

  method CheckCredential(c: Config, agentId: seq<Byte>, credential: seq<Byte>) returns (ok: bool)
    ensures ok == CredentialOk(c, agentId, credential)
  {
    hide Hmac, Hex;
    match c.authMethod {
      case ApiKey =>
        if |credential| != |c.secret| {
          return false;
        }
        ok := ConstTimeEq(credential, c.secret, |c.secret|);
        assert credential[..|c.secret|] == credential && c.secret[..|c.secret|] == c.secret;
      case HmacSha256 =>
        if |c.secret| == 0 || |c.secret| > 64 {
          return false;
        }
        var mac := ComputeHmac(c.secret, agentId);
        var macHex := HexText(mac);
        if |credential| != 64 {
          return false;
        }
        ok := ConstTimeEq(macHex, credential, 64);
        assert macHex[..64] == macHex && credential[..64] == credential;
      case _ =>
        ok := true;
    }
  }

  // ---------------------------------------------------------------- tokens

  datatype Token = Token(agentId: seq<Byte>, text: seq<Byte>, issuedAt: nat, expiresAt: nat, valid: bool)

  const ZEROED: Token := Token([], [], 0, 0, false)

  function Min(a: nat, b: nat): nat { if a <= b then a else b }

  /** A slot holds its token intact, marked invalid, or wiped. */
  ghost predicate SlotOf(slot: Token, t: Token) {
    slot == t || slot == t.(valid := false) || slot == ZEROED
  }

  /** The slots are the last 256 tokens issued, in issue order. */
  ghost predicate Window(slots: seq<Token>, issued: seq<Token>) {
    && |slots| == Min(MAX_TOKENS, |issued|)
    && forall i :: 0 <= i < |slots| ==> SlotOf(slots[i], issued[|issued| - |slots| + i])
  }

  /** Tokens are issued valid and expire `ttl` seconds later. */
  ghost predicate IssuedOk(issued: seq<Token>, ttl: nat) {
    forall i :: 0 <= i < |issued| ==> issued[i].valid && issued[i].expiresAt == issued[i].issuedAt + ttl
  }

  /** When the tokens were issued. */
  function IssueTimes(issued: seq<Token>): seq<nat> {
    seq(|issued|, i requires 0 <= i < |issued| => issued[i].issuedAt)
  }

  /** The first valid slot with the given text, or the number of slots. */
  function MatchIndex(slots: seq<Token>, text: seq<Byte>): (i: nat)
    ensures i <= |slots|
    ensures i < |slots| ==> slots[i].valid && slots[i].text == text
    ensures forall j :: 0 <= j < i ==> !(slots[j].valid && slots[j].text == text)
  {
    if slots == [] || (slots[0].valid && slots[0].text == text) then 0 else 1 + MatchIndex(slots[1..], text)
  }

  lemma WindowPush(slots: seq<Token>, issued: seq<Token>, t: Token)
    requires Window(slots, issued)
    ensures var kept := if |slots| >= MAX_TOKENS then slots[1..] else slots;
            Window(kept + [t], issued + [t])
  {
  }

  lemma WindowUpdate(slots: seq<Token>, issued: seq<Token>, i: nat, slot: Token)
    requires Window(slots, issued) && i < |slots|
    requires slot == ZEROED || slot == slots[i].(valid := false)
    ensures Window(slots[i := slot], issued)
  {
  }

  datatype Login = Refused(verdict: Verdict) | Issued(token: Token)
  datatype Check = NotKnown | Expired | Accepted(token: Token)

  lemma WindowLength(slots: seq<Token>, issued: seq<Token>)
    requires Window(slots, issued)
    ensures |slots| <= MAX_TOKENS
  {
  }

  lemma AttemptSnoc(max: nat, attempts: seq<Attempt>, a: Attempt)
    ensures RunGuard(FRESH, max, attempts + [a]) == GuardAfter(RunGuard(FRESH, max, attempts), max, a)
    ensures GrantedTimes(FRESH, max, attempts + [a])
            == GrantedTimes(FRESH, max, attempts)
               + if VerdictOf(RunGuard(FRESH, max, attempts), a) == Granted then [a.now] else []
  {
    assert (attempts + [a])[..|attempts|] == attempts;
  }

  class AuthTable {
    const config: Config
    const textOf: (seq<Byte>, nat) -> seq<Byte>
    const tokens: array<Token>
    var tokenCount: nat
    var failedAttempts: nat
    var lockoutUntil: nat
    ghost var issued: seq<Token>
    ghost var attempts: seq<Attempt>

    /**
     The guard is where the attempts made so far put it, one token was issued for each granted
     attempt, and the array is the window of the last tokens.
     */
    ghost predicate Valid()
      reads this, tokens
    {
      && config.maxFailed > 0 && config.ttl > 0
      && tokens.Length == MAX_TOKENS && tokenCount <= MAX_TOKENS
      && Guard(failedAttempts, lockoutUntil) == RunGuard(FRESH, config.maxFailed, attempts)
      && failedAttempts < config.maxFailed
      && Window(tokens[..tokenCount], issued) && IssuedOk(issued, config.ttl)
      && IssueTimes(issued) == GrantedTimes(FRESH, config.maxFailed, attempts)
    }

    constructor (c: Config, textOf: (seq<Byte>, nat) -> seq<Byte>)
      ensures Valid() && fresh(tokens) && config == Normalised(c)
      ensures issued == [] && attempts == []
    {
      config, this.textOf := Normalised(c), textOf;
      tokens := new Token[MAX_TOKENS](_ => ZEROED);
      tokenCount, failedAttempts, lockoutUntil := 0, 0, 0;
      issued, attempts := [], [];
    }

    /** Stores a new token at the end, dropping the oldest when the table is full. */
    method Store(t: Token)
      requires tokens.Length == MAX_TOKENS && tokenCount <= MAX_TOKENS
      modifies this`tokenCount, tokens
      ensures 0 < tokenCount <= MAX_TOKENS
      ensures var slots := old(tokens[..tokenCount]);
              tokens[..tokenCount] == (if |slots| >= MAX_TOKENS then slots[1..] else slots) + [t]
    {
      ghost var slots := tokens[..tokenCount];
      if tokenCount >= MAX_TOKENS {
        forall i | 0 <= i < MAX_TOKENS - 1 {
          tokens[i] := tokens[i + 1];
        }
        tokenCount := tokenCount - 1;
        assert tokens[..tokenCount] == slots[1..];
      }
      tokens[tokenCount] := t;
      tokenCount := tokenCount + 1;
    }

    /** One login. The guard moves as `Lockout` says, and a token is issued only for a granted attempt. */
    method Authenticate(agentId: seq<Byte>, credential: seq<Byte>, now: nat) returns (r: Login)
      requires Valid()
      modifies this`tokenCount, this`failedAttempts, this`lockoutUntil, this`issued, this`attempts, tokens
      ensures Valid()
      ensures attempts == old(attempts) + [Attempt(now, CredentialOk(config, agentId, credential))]
      ensures var verdict := VerdictOf(Guard(old(failedAttempts), old(lockoutUntil)),
                                       Attempt(now, CredentialOk(config, agentId, credential)));
              if verdict == Granted
              then && r.Issued? && issued == old(issued) + [r.token] && tokenCount > 0
                   && tokens[tokenCount - 1] == r.token
                   && r.token.issuedAt == now && r.token.text == textOf(agentId, now)
                   && r.token.agentId == agentId[..Min(|agentId|, AGENT_ID_LENGTH)]
              else r == Refused(verdict) && issued == old(issued)
                   && tokens[..tokenCount] == old(tokens[..tokenCount])
    {
      hide CredentialOk, Window, RunGuard, GrantedTimes;
      ghost var a := Attempt(now, CredentialOk(config, agentId, credential));
      AttemptSnoc(config.maxFailed, attempts, a);
      attempts := attempts + [a];
      assert GrantedTimes(FRESH, config.maxFailed, old(attempts)) + [] == IssueTimes(issued);
      if lockoutUntil > 0 && now < lockoutUntil {
        return Refused(LockedOut);
      }
      var ok := CheckCredential(config, agentId, credential);
      if !ok {
        failedAttempts := failedAttempts + 1;
        if failedAttempts >= config.maxFailed {
          lockoutUntil := now + 300;
          failedAttempts := 0;
        }
        return Refused(Denied);
      }
      failedAttempts := 0;
      var t := Token(agentId[..Min(|agentId|, AGENT_ID_LENGTH)], textOf(agentId, now), now, now + config.ttl, true);
      assert tokens[..tokenCount] == old(tokens[..tokenCount]);
      WindowLength(tokens[..tokenCount], issued);
      WindowPush(tokens[..tokenCount], issued, t);
      Store(t);
      issued := issued + [t];
      assert IssueTimes(issued) == IssueTimes(old(issued)) + [now];
      return Issued(t);
    }

    /** Looks a token up; an expired one is marked invalid and refused. */
    method VerifyToken(text: seq<Byte>, now: nat) returns (r: Check)
      requires Valid()
      modifies tokens
      ensures Valid()
      ensures var slots := old(tokens[..tokenCount]);
              var i := MatchIndex(slots, text);
              if i == |slots| then r == NotKnown && tokens[..tokenCount] == slots
              else if now >= slots[i].expiresAt
              then r == Expired && tokens[..tokenCount] == slots[i := slots[i].(valid := false)]
              else r == Accepted(slots[i]) && tokens[..tokenCount] == slots
      ensures r.Accepted? ==>
                exists k :: 0 <= k < |issued| && k + MAX_TOKENS >= |issued| && issued[k] == r.token
                            && r.token.text == text && now < issued[k].issuedAt + config.ttl
    {
      hide MatchIndex, RunGuard;
      var i := ScanValid(text);
      if i == tokenCount {
        return NotKnown;
      }
      if now >= tokens[i].expiresAt {
        WindowUpdate(tokens[..tokenCount], issued, i, tokens[i].(valid := false));
        tokens[i] := tokens[i].(valid := false);
        return Expired;
      }
      ghost var k := |issued| - tokenCount + i;
      assert issued[k] == tokens[i];
      return Accepted(tokens[i]);
    }

    /** Wipes the first valid token with the given text. */
    method InvalidateToken(text: seq<Byte>) returns (found: bool)
      requires Valid()
      modifies tokens
      ensures Valid()
      ensures var slots := old(tokens[..tokenCount]);
              var i := MatchIndex(slots, text);
              found == (i < |slots|)
              && tokens[..tokenCount] == if found then slots[i := ZEROED] else slots
    {
      hide MatchIndex, RunGuard, Window;
      var i := ScanValid(text);
      if i == tokenCount {
        return false;
      }
      WindowUpdate(tokens[..tokenCount], issued, i, ZEROED);
      tokens[i] := ZEROED;
      return true;
    }

    method ScanValid(text: seq<Byte>) returns (i: nat)
      requires tokenCount <= tokens.Length
      ensures i == MatchIndex(tokens[..tokenCount], text)
    {
      hide MatchIndex;
      i := 0;
      while i < tokenCount
        invariant i <= tokenCount
        invariant forall j :: 0 <= j < i ==> !(tokens[j].valid && tokens[j].text == text)
      {
        if tokens[i].valid && tokens[i].text == text {
          return;
        }
        i := i + 1;
      }
    }
  }
}
