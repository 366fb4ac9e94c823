/**
 Sign-in nonces and sessions (backend/src/Auth/AuthService.php) with the cleanup of expired rows
 (backend/src/Command/MaintenanceCleanupCommand.php).  A signed message is taken as already parsed and its
 signature as already checked; times are in seconds of one clock.
 */
module Auth {
  import opened Wrappers
  import opened ByteCodec

  const NONCE_TTL_SECONDS := 300
  const SESSION_TTL_SECONDS := 86_400
  const NONCE_RETENTION_SECONDS := 7 * 86_400

  datatype Nonce = Nonce(wallet: string, chainId: int, expiresAt: int, usedAt: Option<int>)

  datatype Session = Session(wallet: string, expiresAt: int)

  datatype Settings = Settings(chainId: int, domain: string, origin: string)

  /** What the verifier made of a message and its signature. */
  datatype SignedMessage = SignedMessage(address: string, chainId: int, domain: string, uri: string, nonce: string)

  datatype Failure = WalletAddressInvalid | ChainNotAllowed | SiweInvalid | SiweNonceInvalid

  datatype World = World(now: int, nonces: map<string, Nonce>, sessions: map<string, Session>)

  predicate ValidAddress(s: string) {
    |s| == 42 && s[0] == '0' && s[1] == 'x' && HexDigits(s[2..])
  }

  predicate ForThisSite(s: Settings, m: SignedMessage) {
    m.chainId == s.chainId && m.domain == s.domain && m.uri == s.origin
  }

  /** The row the message names can still be used by the signer. */
  predicate Redeemable(s: Settings, w: World, m: SignedMessage) {
    && m.nonce in w.nonces
    && var row := w.nonces[m.nonce];
    row.usedAt.None? && Lower(row.wallet) == m.address && row.chainId == s.chainId && row.expiresAt > w.now
  }

  predicate SignsIn(s: Settings, w: World, m: Option<SignedMessage>) {
    m.Some? && ForThisSite(s, m.value) && Redeemable(s, w, m.value)
  }

  /******* Steps *******/

  /** Nonces and tokens are drawn at random; a collision with a live one is excluded. */
  datatype Label =
    | Pass(seconds: nat)
    | Challenge(wallet: string, nonce: string)
    | Verify(message: Option<SignedMessage>, token: string)
    | Logout(token: string)
    | CleanSessions
    | CleanNonces

  predicate Enabled(w: World, l: Label) {
    match l
    case Challenge(wallet, nonce) => nonce !in w.nonces && wallet == Lower(wallet)
    case Verify(_, token) => token !in w.sessions
    case _ => true
  }

  function Apply(s: Settings, w: World, l: Label): World
    requires Enabled(w, l)
  {
    match l
    case Pass(seconds) => w.(now := w.now + seconds)
    case Challenge(wallet, nonce) => w.(nonces :=
        w.nonces[nonce := Nonce(wallet, s.chainId, w.now + NONCE_TTL_SECONDS, None)])
    case Verify(message, token) =>
      if SignsIn(s, w, message)
      then
        var m := message.value;
        w.(nonces := w.nonces[m.nonce := w.nonces[m.nonce].(usedAt := Some(w.now))],
           sessions := w.sessions[token := Session(m.address, w.now + SESSION_TTL_SECONDS)])
      else w
    case Logout(token) => w.(sessions := w.sessions - {token})
    case CleanSessions => w.(sessions := map t | t in w.sessions && w.sessions[t].expiresAt >= w.now :: w.sessions[t])
    case CleanNonces => w.(nonces := map n | n in w.nonces
        && w.nonces[n].expiresAt >= w.now - NONCE_RETENTION_SECONDS :: w.nonces[n])
  }

  ghost predicate Runs(s: Settings, w: World, labels: seq<Label>)
    decreases |labels|, 0
  {
    labels == [] || (Runs(s, w, labels[..|labels| - 1])
        && Enabled(After(s, w, labels[..|labels| - 1]), labels[|labels| - 1]))
  }

  ghost function After(s: Settings, w: World, labels: seq<Label>): World
    requires Runs(s, w, labels)
    decreases |labels|, 1
  {
    if labels == [] then w else Apply(s, After(s, w, labels[..|labels| - 1]), labels[|labels| - 1])
  }

  ghost function State(s: Settings, w: World, labels: seq<Label>, n: nat): World
    requires n <= |labels| && Runs(s, w, labels[..n])
  {
    After(s, w, labels[..n])
  }

  lemma {:induction false} PrefixRuns(s: Settings, w: World, labels: seq<Label>, n: nat)
    requires Runs(s, w, labels) && n <= |labels|
    ensures Runs(s, w, labels[..n])
    decreases |labels|
  {
    hide Enabled, Apply;
    if n == |labels| {
      assert labels[..n] == labels;
    } else {
      PrefixRuns(s, w, labels[..|labels| - 1], n);
      assert labels[..|labels| - 1][..n] == labels[..n];
    }
  }

  lemma StepOfRun(s: Settings, w: World, labels: seq<Label>, n: nat)
    requires Runs(s, w, labels) && n < |labels|
    ensures Runs(s, w, labels[..n]) && Runs(s, w, labels[..n + 1])
    ensures Enabled(State(s, w, labels, n), labels[n])
    ensures State(s, w, labels, n + 1) == Apply(s, State(s, w, labels, n), labels[n])
  {
    PrefixRuns(s, w, labels, n);
    PrefixRuns(s, w, labels, n + 1);
    hide Enabled, Apply;
    assert labels[..n + 1][..n] == labels[..n];
  }

  ghost predicate Initial(w: World) {
    w.nonces == map[] && w.sessions == map[]
  }

  /******* A nonce is used once, in time, by its wallet *******/

  predicate Issues(l: Label, nonce: string) {
    l.Challenge? && l.nonce == nonce
  }

  /** The n-th step signs in with this nonce. */
  ghost predicate SignsInAt(s: Settings, w: World, labels: seq<Label>, n: nat, nonce: string) {
    && n < |labels| && labels[n].Verify? && Runs(s, w, labels[..n])
    && SignsIn(s, State(s, w, labels, n), labels[n].message) && labels[n].message.value.nonce == nonce
  }

  /** The row of a nonce was written by the issue at `i`, and nothing has used it or issued it again since. */
  ghost predicate IssuedAt(s: Settings, w: World, labels: seq<Label>, n: nat, nonce: string, i: nat) {
    && i < n <= |labels| && Issues(labels[i], nonce) && Runs(s, w, labels[..i]) && Runs(s, w, labels[..n])
    && nonce in State(s, w, labels, n).nonces
    && var row := State(s, w, labels, n).nonces[nonce];
    && row.wallet == labels[i].wallet && Lower(row.wallet) == row.wallet
    && row.expiresAt == State(s, w, labels, i).now + NONCE_TTL_SECONDS
    && forall k: nat :: i < k < n ==> !Issues(labels[k], nonce) && !SignsInAt(s, w, labels, k, nonce)
  }

  lemma NonceStep(s: Settings, w: World, l: Label, nonce: string)
    requires Enabled(w, l) && !Issues(l, nonce)
    requires !(l.Verify? && SignsIn(s, w, l.message) && l.message.value.nonce == nonce)
    ensures nonce in Apply(s, w, l).nonces ==> nonce in w.nonces && Apply(s, w, l).nonces[nonce] == w.nonces[nonce]
  {
  }

  lemma UsedStays(s: Settings, w: World, l: Label, nonce: string)
    requires Enabled(w, l) && l.Verify? && SignsIn(s, w, l.message) && l.message.value.nonce == nonce
    ensures nonce in Apply(s, w, l).nonces && Apply(s, w, l).nonces[nonce].usedAt.Some?
  {
  }

  /** An unused row in the table comes from one issue. */
  lemma {:induction false} UnusedWasIssued(s: Settings, w: World, labels: seq<Label>, n: nat, nonce: string)
    returns (i: nat)
    requires Initial(w) && Runs(s, w, labels) && n <= |labels|
    requires Runs(s, w, labels[..n]) && nonce in State(s, w, labels, n).nonces
        && State(s, w, labels, n).nonces[nonce].usedAt.None?
    ensures IssuedAt(s, w, labels, n, nonce, i)
    decreases n
  {
    assert labels[..0] == [];
    hide Runs;
    if n == 0 {
      EmptyStart(s, w);
    } else {
      StepOfRun(s, w, labels, n - 1);
      var v := State(s, w, labels, n - 1);
      if Issues(labels[n - 1], nonce) {
        i := n - 1;
        LowerTwice(labels[i].wallet);
      } else if SignsInAt(s, w, labels, n - 1, nonce) {
        UsedStays(s, v, labels[n - 1], nonce);
      } else {
        NonceStep(s, v, labels[n - 1], nonce);
        i := UnusedWasIssued(s, w, labels, n - 1, nonce);
      }
    }
  }

  lemma EmptyStart(s: Settings, w: World)
    requires Initial(w)
    ensures Runs(s, w, []) && After(s, w, []).nonces == map[] && After(s, w, []).sessions == map[]
  {
  }

  lemma LowerTwice(s: string)
    ensures Lower(Lower(s)) == Lower(s)
  {
  }

  /**
   Every sign-in goes back to one issue of its nonce to the very wallet that signed, strictly less than five
   minutes earlier, and no other sign-in has used that issue.
   */
  lemma SignInWasIssued(s: Settings, w: World, labels: seq<Label>, n: nat, nonce: string) returns (i: nat)
    requires Initial(w) && Runs(s, w, labels) && SignsInAt(s, w, labels, n, nonce)
    ensures i < n && Issues(labels[i], nonce) && Runs(s, w, labels[..i])
    ensures labels[i].wallet == labels[n].message.value.address
    ensures State(s, w, labels, n).now < State(s, w, labels, i).now + NONCE_TTL_SECONDS
    ensures forall k: nat :: i < k < n ==> !Issues(labels[k], nonce) && !SignsInAt(s, w, labels, k, nonce)
  {
    i := UnusedWasIssued(s, w, labels, n, nonce);
  }

  /** Two sign-ins with one nonce have an issue of that nonce between them: each issue yields at most one session. */
  lemma NonceIsUsedOnce(s: Settings, w: World, labels: seq<Label>, m: nat, n: nat, nonce: string)
    requires Initial(w) && Runs(s, w, labels) && m < n
    requires SignsInAt(s, w, labels, m, nonce) && SignsInAt(s, w, labels, n, nonce)
    ensures exists i :: m < i < n && Issues(labels[i], nonce)
  {
    hide Runs, SignsIn;
    var i := SignInWasIssued(s, w, labels, n, nonce);
    assert i != m;
  }

  /******* A session lives from its sign-in to logout or expiry *******/

  function Resolve(w: World, token: string): Option<string> {
    if token in w.sessions && w.sessions[token].expiresAt > w.now then Some(w.sessions[token].wallet) else None
  }

  /** A sign-in at `i` for `wallet` handed out the token, and it has been neither logged out nor outlived since. */
  ghost predicate LiveSince(s: Settings, w: World, labels: seq<Label>, token: string, wallet: string, i: nat) {
    && i < |labels| && labels[i].Verify? && labels[i].token == token && Runs(s, w, labels[..i]) && Runs(s, w, labels)
    && SignsIn(s, State(s, w, labels, i), labels[i].message) && labels[i].message.value.address == wallet
    && After(s, w, labels).now < State(s, w, labels, i).now + SESSION_TTL_SECONDS
    && forall k :: i < k < |labels| ==> labels[k] != Logout(token)
  }

  lemma LiveLonger(s: Settings, w: World, labels: seq<Label>, token: string, wallet: string, i: nat)
    requires Runs(s, w, labels) && labels != []
    requires var before := labels[..|labels| - 1];
             && LiveSince(s, w, before, token, wallet, i) && labels[|labels| - 1] != Logout(token)
             && After(s, w, labels).now < State(s, w, before, i).now + SESSION_TTL_SECONDS
    ensures LiveSince(s, w, labels, token, wallet, i)
  {
    var before := labels[..|labels| - 1];
    hide SignsIn, Apply, Enabled, Runs, After;
    assert before[..i] == labels[..i] && labels[i] == before[i];
    assert forall k :: i < k < |before| ==> labels[k] == before[k];
  }

  lemma SessionStep(s: Settings, w: World, l: Label, token: string)
    requires Enabled(w, l)
    ensures w.now <= Apply(s, w, l).now
    ensures !(l.Verify? && l.token == token) ==>
              (token in Apply(s, w, l).sessions ==>
                  token in w.sessions && Apply(s, w, l).sessions[token] == w.sessions[token])
    ensures l == Logout(token) ==> token !in Apply(s, w, l).sessions
    ensures token in w.sessions && l != Logout(token) && w.sessions[token].expiresAt > w.now ==>
              token in Apply(s, w, l).sessions && Apply(s, w, l).sessions[token] == w.sessions[token]
  {
  }

  /** A session in the table goes back to its sign-in. */
  lemma {:induction false} SessionWasOpened(s: Settings, w: World, labels: seq<Label>, token: string) returns (i: nat)
    requires Initial(w) && Runs(s, w, labels) && token in After(s, w, labels).sessions
    ensures i < |labels| && Runs(s, w, labels[..i])
    ensures After(s, w, labels).sessions[token].expiresAt == State(s, w, labels, i).now + SESSION_TTL_SECONDS
    ensures After(s, w, labels).now < After(s, w, labels).sessions[token].expiresAt ==>
              LiveSince(s, w, labels, token, After(s, w, labels).sessions[token].wallet, i)
    decreases |labels|
  {
    hide SignsIn;
    if labels == [] {
      EmptyStart(s, w);
    } else {
      var before, last := labels[..|labels| - 1], labels[|labels| - 1];
      SessionStep(s, After(s, w, before), last, token);
      hide Apply;
      if token in After(s, w, before).sessions
          && After(s, w, before).sessions[token] == After(s, w, labels).sessions[token] && last != Logout(token) {
        i := SessionWasOpened(s, w, before, token);
        assert before[..i] == labels[..i];
        if After(s, w, labels).now < After(s, w, labels).sessions[token].expiresAt {
          LiveLonger(s, w, labels, token, After(s, w, labels).sessions[token].wallet, i);
        }
      } else {
        i := |labels| - 1;
        OpenedNow(s, After(s, w, before), last, token);
      }
    }
  }

  lemma OpenedNow(s: Settings, w: World, l: Label, token: string)
    requires Enabled(w, l) && token in Apply(s, w, l).sessions
    requires !(token in w.sessions && w.sessions[token] == Apply(s, w, l).sessions[token] && l != Logout(token))
    ensures l.Verify? && l.token == token && SignsIn(s, w, l.message)
    ensures Apply(s, w, l).sessions[token] == Session(l.message.value.address, w.now + SESSION_TTL_SECONDS)
    ensures Apply(s, w, l).now == w.now
  {
  }

  lemma {:induction false} LiveIsInTable(s: Settings, w: World, labels: seq<Label>, token: string, wallet: string,
          i: nat)
    requires LiveSince(s, w, labels, token, wallet, i)
    ensures token in After(s, w, labels).sessions
    ensures After(s, w, labels).sessions[token] == Session(wallet, State(s, w, labels, i).now + SESSION_TTL_SECONDS)
    decreases |labels|
  {
    var before, last := labels[..|labels| - 1], labels[|labels| - 1];
    if i < |labels| - 1 {
      hide SignsIn;
      SessionStep(s, After(s, w, before), last, token);
      hide Apply;
      assert before[..i] == labels[..i] && before[i] == labels[i];
      assert forall k :: i < k < |before| ==> labels[k] == before[k];
      LiveIsInTable(s, w, before, token, wallet, i);
    }
  }

  /**
   A token resolves to a wallet if and only if some sign-in of that wallet handed it out, less than a day
   ago, and it was not logged out since; cleaning up never changes the answer.
   */
  lemma ResolvesIffLive(s: Settings, w: World, labels: seq<Label>, token: string, wallet: string)
    requires Initial(w) && Runs(s, w, labels)
    ensures Resolve(After(s, w, labels), token) == Some(wallet) <==>
        exists i :: LiveSince(s, w, labels, token, wallet, i)
  {
    hide LiveSince, Runs;
    if Resolve(After(s, w, labels), token) == Some(wallet) {
      var i := SessionWasOpened(s, w, labels, token);
      assert LiveSince(s, w, labels, token, wallet, i);
    }
    if i :| LiveSince(s, w, labels, token, wallet, i) {
      LiveIsInTable(s, w, labels, token, wallet, i);
      LiveIsUnexpired(s, w, labels, token, wallet, i);
    }
  }

  lemma LiveIsUnexpired(s: Settings, w: World, labels: seq<Label>, token: string, wallet: string, i: nat)
    requires LiveSince(s, w, labels, token, wallet, i)
    ensures i < |labels| && Runs(s, w, labels) && Runs(s, w, labels[..i])
    ensures After(s, w, labels).now < State(s, w, labels, i).now + SESSION_TTL_SECONDS
  {
  }

  /******* The service *******/

  predicate TokenChar(c: char) {
    'A' <= c <= 'Z' || 'a' <= c <= 'z' || '0' <= c <= '9' || c == '_' || c == '-'
  }

  predicate ValidToken(token: string) {
    |token| == 43 && forall i :: 0 <= i < |token| ==> TokenChar(token[i])
  }

  class AuthService {
    const s: Settings
    var w: World

    constructor (s: Settings, w: World)
      ensures this.s == s && this.w == w
    {
      this.s, this.w := s, w;
    }

    method IssueChallenge(walletAddress: string, requestedChainId: int, nonce: string)
      returns (r: Result<Nonce, Failure>)
      requires nonce !in w.nonces
      modifies this
      ensures r.Ok? <==> ValidAddress(walletAddress) && requestedChainId == s.chainId
      ensures r.Ok? ==>
          Enabled(old(w), Challenge(Lower(walletAddress), nonce))
          && w == Apply(s, old(w), Challenge(Lower(walletAddress), nonce))
      ensures r.Ok? ==> w.nonces[nonce] == r.value && r.value.wallet == Lower(walletAddress)
      ensures r.Err? ==> w == old(w)
    {
      if !ValidAddress(walletAddress) {
        return Err(WalletAddressInvalid);
      }
      var wallet := Lower(walletAddress);
      LowerTwice(walletAddress);
      if requestedChainId != s.chainId {
        return Err(ChainNotAllowed);
      }
      var row := Nonce(wallet, s.chainId, w.now + NONCE_TTL_SECONDS, None);
      w := w.(nonces := w.nonces[nonce := row]);
      return Ok(row);
    }

    /** The transaction locks the nonce row, so checking and using it are one step. */
    method VerifyMessage(message: Option<SignedMessage>, token: string) returns (r: Result<Session, Failure>)
      requires token !in w.sessions
      modifies this
      ensures Enabled(old(w), Verify(message, token)) && w == Apply(s, old(w), Verify(message, token))
      ensures r.Ok? <==> SignsIn(s, old(w), message)
      ensures r.Ok? ==>
          w.sessions[token] == r.value && r.value == Session(message.value.address, w.now + SESSION_TTL_SECONDS)
      ensures r.Ok? ==> w.nonces[message.value.nonce].usedAt == Some(w.now)
      ensures r.Err? ==>
          r.error == if message.None? || !ForThisSite(s, message.value) then SiweInvalid else SiweNonceInvalid
    {
      if message.None? || message.value.chainId != s.chainId || message.value.domain != s.domain
          || message.value.uri != s.origin {
        return Err(SiweInvalid);
      }
      var m := message.value;
      if m.nonce !in w.nonces {
        return Err(SiweNonceInvalid);
      }
      var row := w.nonces[m.nonce];
      if row.usedAt.Some? || Lower(row.wallet) != m.address || row.chainId != s.chainId || row.expiresAt <= w.now {
        return Err(SiweNonceInvalid);
      }
      w := w.(nonces := w.nonces[m.nonce := row.(usedAt := Some(w.now))]);
      var session := Session(m.address, w.now + SESSION_TTL_SECONDS);
      w := w.(sessions := w.sessions[token := session]);
      return Ok(session);
    }

    method ResolveSession(token: string) returns (wallet: Option<string>)
      ensures wallet == if ValidToken(token) then Resolve(w, token) else None
    {
      if !ValidToken(token) {
        return None;
      }
      if token in w.sessions && w.sessions[token].expiresAt > w.now {
        return Some(w.sessions[token].wallet);
      }
      return None;
    }

    method LogOut(token: Option<string>)
      modifies this
      ensures w == if token.Some? then Apply(s, old(w), Logout(token.value)) else old(w)
    {
      if token.Some? {
        w := w.(sessions := w.sessions - {token.value});
      }
    }
  }
}
