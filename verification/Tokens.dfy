/**
 * Verification and reset tokens: read, compare-and-set on `usedAt`, then write. Any
 * number of verify and reset calls, token issues and invalidations, registrations,
 * links to a Google account and account deletions may interleave.
 */
module Tokens {
  import opened Sequences
  import opened Options

  datatype TokenKind = EMAIL_VERIFICATION | PASSWORD_RESET

  datatype Token = Token(userId: string, kind: TokenKind, expiresAt: int, usedAt: Option<int>)

  datatype User = User(emailVerifiedAt: Option<int>, passwordHash: Option<string>, deletedAt: Option<int>)

  /** A token is known by the hash of the secret in the link. */
  datatype Hash = Hash(digest: string)

  /** A verify or reset call: which kind, with which token, and the new password's hash for a reset. */
  datatype Request = Request(kind: TokenKind, token: Hash, newPasswordHash: string)

  /** How far a call has come. */
  datatype Call = Checked(userId: string) | Consumed(userId: string) | Done(userId: string) | Rejected

  /** A write to a user's row: by which kind of step, and its clock or the values it was given. */
  datatype Write =
    | ByCall(id: nat, user: string, at: int)
    | ByRegistration(user: string, hash: Option<string>, verifiedAt: Option<int>)
    | ByLinking(user: string, verified: int)
    | ByDeletion(user: string, at: int)

  /** The two tables, the calls in progress, and the writes to the users table, oldest first. */
  datatype State = State(
    tokens: map<Hash, Token>, users: map<string, User>, calls: map<nat, Call>, writes: seq<Write>)

  /** Linking writes the verification time that its own earlier read found, or its clock. */
  datatype Step =
    | Issue(token: Hash, userId: string, kind: TokenKind, expiresAt: int)
    | InvalidateVerification(user: string, at: int)
    | Register(user: string, hash: Option<string>, verifiedAt: Option<int>)
    | LinkGoogle(user: string, verified: int)
    | DeleteAccount(user: string, at: int)
    | ReadToken(id: nat, now: int)
    | CompareAndSet(id: nat, now: int)
    | WriteUser(id: nat, now: int)

  predicate Usable(tokens: map<Hash, Token>, r: Request, now: int) {
    r.token in tokens
    && tokens[r.token].kind == r.kind
    && tokens[r.token].usedAt.None?
    && tokens[r.token].expiresAt > now
  }

  /** Marks a user's outstanding e-mail tokens used. */
  function Invalidate(tokens: map<Hash, Token>, user: string, at: int): map<Hash, Token> {
    map h | h in tokens ::
      var t := tokens[h];
      if t.userId == user && t.kind == EMAIL_VERIFICATION && t.usedAt.None? then t.(usedAt := Some(at)) else t
  }

  function UserAfter(u: User, r: Request, now: int): User {
    match r.kind
    case EMAIL_VERIFICATION => u.(emailVerifiedAt := Some(now))
    case PASSWORD_RESET => u.(passwordHash := Some(r.newPasswordHash))
  }

  /**
   * One atomic step; a step that is not enabled does nothing. A write to a user that
   * does not exist throws, so that call stays where it was.
   */
  function Apply(reqs: nat -> Request, s: State, step: Step): State {
    match step
    case Issue(h, user, kind, expiresAt) =>
      if h in s.tokens then s else s.(tokens := s.tokens[h := Token(user, kind, expiresAt, None)])
    case InvalidateVerification(user, at) =>
      s.(tokens := Invalidate(s.tokens, user, at))
    case Register(user, hash, verifiedAt) =>
      if user in s.users then s
      else
        s.(users := s.users[user := User(verifiedAt, hash, None)],
           writes := s.writes + [ByRegistration(user, hash, verifiedAt)])
    case LinkGoogle(user, verified) =>
      if user !in s.users then s
      else
        s.(users := s.users[user := s.users[user].(emailVerifiedAt := Some(verified))],
           writes := s.writes + [ByLinking(user, verified)])
    case DeleteAccount(user, at) =>
      if user !in s.users then s
      else
        s.(users := s.users[user := s.users[user].(deletedAt := Some(at), passwordHash := None)],
           writes := s.writes + [ByDeletion(user, at)])
    case ReadToken(id, now) =>
      if id in s.calls then s
      else if Usable(s.tokens, reqs(id), now) then
        s.(calls := s.calls[id := Checked(s.tokens[reqs(id).token].userId)])
      else s.(calls := s.calls[id := Rejected])
    case CompareAndSet(id, now) =>
      if id !in s.calls || !s.calls[id].Checked? then s
      else
        var h := reqs(id).token;
        if h in s.tokens && s.tokens[h].usedAt.None? then
          s.(tokens := s.tokens[h := s.tokens[h].(usedAt := Some(now))],
             calls := s.calls[id := Consumed(s.calls[id].userId)])
        else s.(calls := s.calls[id := Rejected])
    case WriteUser(id, now) =>
      if id !in s.calls || !s.calls[id].Consumed? then s
      else
        var u := s.calls[id].userId;
        if u in s.users then
          s.(users := s.users[u := UserAfter(s.users[u], reqs(id), now)],
             calls := s.calls[id := Done(u)], writes := s.writes + [ByCall(id, u, now)])
        else s
  }

  function Run(reqs: nat -> Request, start: State, steps: seq<Step>): State {
    if steps == [] then start
    else Apply(reqs, Run(reqs, start, steps[..|steps| - 1]), steps[|steps| - 1])
  }

  // ---- single use ----

  /** Call `id` got past the compare-and-set of token `h`. */
  ghost predicate Won(reqs: nat -> Request, s: State, id: nat, h: Hash) {
    id in s.calls && (s.calls[id].Consumed? || s.calls[id].Done?) && reqs(id).token == h
  }

  ghost predicate TokenInvariant(reqs: nat -> Request, s: State) {
    && (forall id <- s.calls :: s.calls[id].Checked? ==> reqs(id).token in s.tokens)
    && (forall id, h :: Won(reqs, s, id, h) ==> h in s.tokens && s.tokens[h].usedAt.Some?)
    && (forall i, j, h :: Won(reqs, s, i, h) && Won(reqs, s, j, h) ==> i == j)
  }

  /** A call past its check holds a token of its own kind and that token's user. */
  ghost predicate CallsMatchTokens(reqs: nat -> Request, s: State) {
    forall id <- s.calls :: !s.calls[id].Rejected? ==>
      && reqs(id).token in s.tokens
      && s.tokens[reqs(id).token].kind == reqs(id).kind
      && s.tokens[reqs(id).token].userId == s.calls[id].userId
  }

  /** A reset token is used only by a call that won it. */
  ghost predicate ResetsHaveWinners(reqs: nat -> Request, s: State) {
    forall h <- s.tokens :: s.tokens[h].kind == PASSWORD_RESET && s.tokens[h].usedAt.Some? ==>
      exists id :: Won(reqs, s, id, h)
  }

  /** Each call has written at most once, and only when it is done. */
  ghost predicate WritesOnce(s: State) {
    && (forall i :: 0 <= i < |s.writes| && s.writes[i].ByCall? ==>
          s.writes[i].id in s.calls && s.calls[s.writes[i].id] == Done(s.writes[i].user))
    && (forall i, j :: 0 <= i < j < |s.writes| && s.writes[i].ByCall? && s.writes[j].ByCall? ==>
          s.writes[i].id != s.writes[j].id)
  }

  /** A call that has won now had won before, or this step let it through on an unused token. */
  lemma WinsByStep(reqs: nat -> Request, s: State, step: Step, id: nat, h: Hash)
    requires Won(reqs, Apply(reqs, s, step), id, h)
    ensures Won(reqs, s, id, h)
            || (step == CompareAndSet(id, step.now) && h in s.tokens && s.tokens[h].usedAt.None?
                && h in Apply(reqs, s, step).tokens && Apply(reqs, s, step).tokens[h].usedAt.Some?)
  {
  }

  lemma CheckedStillThere(reqs: nat -> Request, s: State, step: Step, id: nat)
    requires id in Apply(reqs, s, step).calls && Apply(reqs, s, step).calls[id].Checked?
    requires id in s.calls && s.calls[id].Checked? ==> reqs(id).token in s.tokens
    ensures reqs(id).token in Apply(reqs, s, step).tokens
  {
  }

  lemma StepKeepsTokens(reqs: nat -> Request, s: State, step: Step)
    requires TokenInvariant(reqs, s)
    ensures TokenInvariant(reqs, Apply(reqs, s, step))
  {
    var t := Apply(reqs, s, step);
    forall id | id in t.calls && t.calls[id].Checked?
      ensures reqs(id).token in t.tokens
    {
      CheckedStillThere(reqs, s, step, id);
    }
    forall id, h | Won(reqs, t, id, h)
      ensures h in t.tokens && t.tokens[h].usedAt.Some?
    {
      WinsByStep(reqs, s, step, id, h);
      if Won(reqs, s, id, h) {
        OneStepKeepsUsed(reqs, s, step, h);
      }
    }
    forall i, j, h | Won(reqs, t, i, h) && Won(reqs, t, j, h)
      ensures i == j
    {
      WinsByStep(reqs, s, step, i, h);
      WinsByStep(reqs, s, step, j, h);
    }
  }

  lemma StepKeepsMatching(reqs: nat -> Request, s: State, step: Step)
    requires CallsMatchTokens(reqs, s)
    ensures CallsMatchTokens(reqs, Apply(reqs, s, step))
  {
  }

  lemma StepKeepsWinners(reqs: nat -> Request, s: State, step: Step)
    requires ResetsHaveWinners(reqs, s)
    ensures ResetsHaveWinners(reqs, Apply(reqs, s, step))
  {
    var t := Apply(reqs, s, step);
    forall h | h in t.tokens && t.tokens[h].kind == PASSWORD_RESET && t.tokens[h].usedAt.Some?
      ensures exists id :: Won(reqs, t, id, h)
    {
      if h in s.tokens && s.tokens[h].usedAt.Some? {
        var id :| Won(reqs, s, id, h);
        assert Won(reqs, t, id, h);
      } else {
        assert step.CompareAndSet? && Won(reqs, t, step.id, h);
      }
    }
  }

  lemma StepKeepsWrites(reqs: nat -> Request, s: State, step: Step)
    requires WritesOnce(s)
    ensures WritesOnce(Apply(reqs, s, step))
  {
  }

  /** A fresh start: any users, any unused tokens, no calls. */
  ghost predicate Fresh(s: State) {
    s.calls == map[] && s.writes == [] && forall h <- s.tokens :: s.tokens[h].usedAt.None?
  }

  lemma {:induction false} EveryRunKeepsAll(reqs: nat -> Request, start: State, steps: seq<Step>)
    requires Fresh(start)
    ensures var s := Run(reqs, start, steps);
      TokenInvariant(reqs, s) && CallsMatchTokens(reqs, s) && ResetsHaveWinners(reqs, s) && WritesOnce(s)
  {
    if steps != [] {
      var init, step := steps[..|steps| - 1], steps[|steps| - 1];
      EveryRunKeepsAll(reqs, start, init);
      var s := Run(reqs, start, init);
      StepKeepsTokens(reqs, s, step);
      StepKeepsMatching(reqs, s, step);
      StepKeepsWinners(reqs, s, step);
      StepKeepsWrites(reqs, s, step);
    }
  }

  /** At most one call per token gets past the compare-and-set, in every interleaving. */
  lemma SingleUse(reqs: nat -> Request, start: State, steps: seq<Step>, i: nat, j: nat, h: Hash)
    requires Fresh(start)
    requires Won(reqs, Run(reqs, start, steps), i, h) && Won(reqs, Run(reqs, start, steps), j, h)
    ensures i == j
  {
    EveryRunKeepsAll(reqs, start, steps);
  }

  /** The call behind write `a`. */
  ghost predicate WrittenBy(s: State, a: nat, id: nat) {
    a < |s.writes| && s.writes[a].ByCall? && s.writes[a].id == id
  }

  /** Each token is behind at most one write, and the writing call was of the token's kind and user. */
  lemma OneWritePerToken(
    reqs: nat -> Request, start: State, steps: seq<Step>, a: nat, i: nat, b: nat, j: nat)
    requires Fresh(start)
    requires WrittenBy(Run(reqs, start, steps), a, i) && WrittenBy(Run(reqs, start, steps), b, j)
    requires reqs(i).token == reqs(j).token
    ensures a == b
    ensures var s := Run(reqs, start, steps);
      var r := reqs(i);
      && r.token in s.tokens && s.tokens[r.token].kind == r.kind
      && s.writes[a].user == s.tokens[r.token].userId && i in s.calls && s.calls[i] == Done(s.writes[a].user)
  {
    EveryRunKeepsAll(reqs, start, steps);
    var s := Run(reqs, start, steps);
    assert Won(reqs, s, i, reqs(i).token) && Won(reqs, s, j, reqs(i).token);
  }

  /** A reset token is used exactly when one call, and only one, has won it. */
  lemma ResetUsedIffWon(reqs: nat -> Request, start: State, steps: seq<Step>, h: Hash)
    requires Fresh(start)
    requires var s := Run(reqs, start, steps); h in s.tokens && s.tokens[h].kind == PASSWORD_RESET
    ensures var s := Run(reqs, start, steps);
      s.tokens[h].usedAt.Some? <==> exists id :: Won(reqs, s, id, h)
  {
    EveryRunKeepsAll(reqs, start, steps);
  }

  // ---- used stays used ----

  /** Once used, a token keeps its first time of use for ever. */
  lemma {:induction false} UsedStaysUsed(reqs: nat -> Request, start: State, steps: seq<Step>, h: Hash)
    requires h in start.tokens && start.tokens[h].usedAt.Some?
    ensures h in Run(reqs, start, steps).tokens
    ensures Run(reqs, start, steps).tokens[h] == start.tokens[h]
  {
    if steps != [] {
      UsedStaysUsed(reqs, start, steps[..|steps| - 1], h);
    }
  }

  /** Nobody wins a token after it has been used or invalidated. */
  lemma {:induction false} NoLateWinner(reqs: nat -> Request, start: State, steps: seq<Step>, id: nat, h: Hash)
    requires h in start.tokens && start.tokens[h].usedAt.Some?
    requires !Won(reqs, start, id, h)
    ensures !Won(reqs, Run(reqs, start, steps), id, h)
  {
    if steps != [] {
      NoLateWinner(reqs, start, steps[..|steps| - 1], id, h);
      UsedStaysUsed(reqs, start, steps[..|steps| - 1], h);
    }
  }

  // ---- expiry ----

  /** At `steps[k]` call `id` read its token and found it usable. */
  ghost predicate ReadAt(reqs: nat -> Request, start: State, steps: seq<Step>, id: nat, k: nat) {
    && k < |steps| && steps[k].ReadToken? && steps[k].id == id
    && Usable(Run(reqs, start, steps[..k]).tokens, reqs(id), steps[k].now)
  }

  lemma OneStepKeepsExpiry(reqs: nat -> Request, s: State, step: Step, h: Hash)
    requires h in s.tokens
    ensures h in Apply(reqs, s, step).tokens && Apply(reqs, s, step).tokens[h].expiresAt == s.tokens[h].expiresAt
  {
  }

  /** A call that is new and not rejected has just read a usable token. */
  lemma NewCallHasRead(reqs: nat -> Request, s: State, step: Step, id: nat)
    requires id in Apply(reqs, s, step).calls && !Apply(reqs, s, step).calls[id].Rejected?
    ensures id in s.calls ==> !s.calls[id].Rejected?
    ensures id !in s.calls ==> step.ReadToken? && step.id == id && Usable(s.tokens, reqs(id), step.now)
  {
  }

  /** A token's expiry never changes. */
  lemma {:induction false} ExpiryIsFixed(reqs: nat -> Request, start: State, steps: seq<Step>, k: nat, h: Hash)
    requires k <= |steps| && h in Run(reqs, start, steps[..k]).tokens
    ensures h in Run(reqs, start, steps).tokens
    ensures Run(reqs, start, steps).tokens[h].expiresAt == Run(reqs, start, steps[..k]).tokens[h].expiresAt
  {
    if k < |steps| {
      assert steps[..|steps| - 1][..k] == steps[..k];
      ExpiryIsFixed(reqs, start, steps[..|steps| - 1], k, h);
      OneStepKeepsExpiry(reqs, Run(reqs, start, steps[..|steps| - 1]), steps[|steps| - 1], h);
    } else {
      FullPrefix(steps);
    }
  }

  /** Every call that is not rejected read its token before the token expired. */
  lemma {:induction false} ReadBeforeExpiry(reqs: nat -> Request, start: State, steps: seq<Step>, id: nat)
    returns (k: nat)
    requires Fresh(start)
    requires id in Run(reqs, start, steps).calls && !Run(reqs, start, steps).calls[id].Rejected?
    ensures ReadAt(reqs, start, steps, id, k)
    ensures var tokens := Run(reqs, start, steps).tokens;
      reqs(id).token in tokens && steps[k].now < tokens[reqs(id).token].expiresAt
  {
    var init := steps[..|steps| - 1];
    NewCallHasRead(reqs, Run(reqs, start, init), steps[|steps| - 1], id);
    if id in Run(reqs, start, init).calls {
      k := ReadBeforeExpiry(reqs, start, init, id);
      assert init[..k] == steps[..k];
    } else {
      k := |init|;
    }
    ExpiryIsFixed(reqs, start, steps, k, reqs(id).token);
  }

  /** No compare-and-set has an earlier clock than a read before it. */
  ghost predicate ClockedSteps(steps: seq<Step>) {
    forall i, j :: 0 <= i < j < |steps| && steps[i].ReadToken? && steps[j].CompareAndSet? ==>
      steps[i].now <= steps[j].now
  }

  /** At `steps[k]` call `id` marked its token used. */
  ghost predicate ConsumedAt(reqs: nat -> Request, start: State, steps: seq<Step>, id: nat, k: nat) {
    && k < |steps| && steps[k].CompareAndSet? && steps[k].id == id
    && id in Run(reqs, start, steps[..k]).calls && Run(reqs, start, steps[..k]).calls[id].Checked?
  }

  lemma {:induction false} WinnerConsumed(reqs: nat -> Request, start: State, steps: seq<Step>, id: nat, h: Hash)
    returns (k: nat)
    requires Fresh(start) && Won(reqs, Run(reqs, start, steps), id, h)
    ensures ConsumedAt(reqs, start, steps, id, k)
    ensures var tokens := Run(reqs, start, steps).tokens;
      h in tokens && tokens[h].usedAt == Some(steps[k].now)
  {
    var init, step := steps[..|steps| - 1], steps[|steps| - 1];
    var s := Run(reqs, start, init);
    if Won(reqs, s, id, h) {
      k := WinnerConsumed(reqs, start, init, id, h);
      assert init[..k] == steps[..k];
      OneStepKeepsUsed(reqs, s, step, h);
    } else {
      k := |init|;
      assert step == CompareAndSet(id, step.now);
    }
  }

  lemma OneStepKeepsUsed(reqs: nat -> Request, s: State, step: Step, h: Hash)
    requires h in s.tokens && s.tokens[h].usedAt.Some?
    ensures h in Apply(reqs, s, step).tokens && Apply(reqs, s, step).tokens[h] == s.tokens[h]
  {
  }

  /**
   * A winner read its token at some time before the expiry and used it at a later one.
   * The use itself is before the expiry exactly when it came within the life the token
   * had left at the read, and it is late by less than the time between the two.
   */
  lemma UsedInTimeIff(reqs: nat -> Request, start: State, steps: seq<Step>, id: nat, h: Hash)
    returns (r: nat, w: nat)
    requires Fresh(start) && ClockedSteps(steps) && Won(reqs, Run(reqs, start, steps), id, h)
    ensures ReadAt(reqs, start, steps, id, r) && ConsumedAt(reqs, start, steps, id, w) && r < w
    ensures var t := Run(reqs, start, steps).tokens;
      var delay := steps[w].now - steps[r].now;
      && h in t && t[h].usedAt == Some(steps[w].now) && delay >= 0
      && (t[h].usedAt.value < t[h].expiresAt <==> delay < t[h].expiresAt - steps[r].now)
      && t[h].usedAt.value < t[h].expiresAt + delay
  {
    w := WinnerConsumed(reqs, start, steps, id, h);
    r := ReadBeforeExpiry(reqs, start, steps[..w], id);
    assert steps[..w][..r] == steps[..r];
    ExpiryIsFixed(reqs, start, steps, w, h);
  }

  /** Every compare-and-set comes within `d` of the read of the same call. */
  ghost predicate PromptSteps(steps: seq<Step>, d: int) {
    forall i, j ::
      0 <= i < j < |steps| && steps[i].ReadToken? && steps[j].CompareAndSet? && steps[i].id == steps[j].id ==>
        steps[j].now <= steps[i].now + d
  }

  /** If every update follows its read within `d`, no token is used `d` or more after its expiry. */
  lemma UsedWithinDelay(reqs: nat -> Request, start: State, steps: seq<Step>, id: nat, h: Hash, d: int)
    requires Fresh(start) && PromptSteps(steps, d) && Won(reqs, Run(reqs, start, steps), id, h)
    ensures var t := Run(reqs, start, steps).tokens;
      h in t && t[h].usedAt.Some? && t[h].usedAt.value <= t[h].expiresAt + d - 1
  {
    var w := WinnerConsumed(reqs, start, steps, id, h);
    var r := ReadBeforeExpiry(reqs, start, steps[..w], id);
    ExpiryIsFixed(reqs, start, steps, w, h);
  }

  /** One account, one reset token that expires at `expiry`. */
  function OneToken(user: string, h: Hash, expiry: int): State {
    State(map[h := Token(user, PASSWORD_RESET, expiry, None)], map[user := User(None, None, None)], map[], [])
  }

  /** The bound is reached: for every delay of d > 0 a token can be used d - 1 after it expired, and writes. */
  lemma LateByAnyDelay(user: string, h: Hash, password: string, expiry: int, d: nat)
    returns (reqs: nat -> Request, steps: seq<Step>)
    requires d > 0
    ensures Fresh(OneToken(user, h, expiry)) && ClockedSteps(steps) && PromptSteps(steps, d)
    ensures steps == [ReadToken(0, expiry - 1), CompareAndSet(0, expiry - 1 + d), WriteUser(0, expiry - 1 + d)]
    ensures var s := Run(reqs, OneToken(user, h, expiry), steps);
      && Won(reqs, s, 0, h)
      && h in s.tokens && s.tokens[h].usedAt == Some(s.tokens[h].expiresAt + d - 1)
      && user in s.users && s.users[user].passwordHash == Some(password)
  {
    reqs := (id: nat) => Request(PASSWORD_RESET, h, password);
    var late := expiry - 1 + d;
    steps := [ReadToken(0, expiry - 1), CompareAndSet(0, late), WriteUser(0, late)];
    ThreeSteps(reqs, OneToken(user, h, expiry), ReadToken(0, expiry - 1), CompareAndSet(0, late), WriteUser(0, late));
  }

  // ---- what a user's row becomes ----

  /** At this step the write `w` is made to the users table of `s`. */
  ghost predicate MakesWrite(reqs: nat -> Request, s: State, step: Step, w: Write) {
    match w
    case ByCall(id, user, at) => step == WriteUser(id, at) && id in s.calls && s.calls[id] == Consumed(user)
                                 && user in s.users
    case ByRegistration(user, hash, at) => step == Register(user, hash, at) && user !in s.users
    case ByLinking(user, at) => step == LinkGoogle(user, at) && user in s.users
    case ByDeletion(user, at) => step == DeleteAccount(user, at) && user in s.users
  }

  /** A step logs a write exactly when it makes one. */
  lemma StepLogs(reqs: nat -> Request, s: State, step: Step) returns (w: Option<Write>)
    ensures w.Some? ==> MakesWrite(reqs, s, step, w.value)
    ensures w.None? ==> forall x :: !MakesWrite(reqs, s, step, x)
    ensures Apply(reqs, s, step).writes == match w case None => s.writes case Some(x) => s.writes + [x]
    ensures w.None? ==> Apply(reqs, s, step).users == s.users
  {
    match step
    case Register(user, hash, at) => w := if user in s.users then None else Some(ByRegistration(user, hash, at));
    case LinkGoogle(user, at) => w := if user !in s.users then None else Some(ByLinking(user, at));
    case DeleteAccount(user, at) => w := if user !in s.users then None else Some(ByDeletion(user, at));
    case WriteUser(id, at) =>
      if id in s.calls && s.calls[id].Consumed? && s.calls[id].userId in s.users {
        w := Some(ByCall(id, s.calls[id].userId, at));
      } else {
        w := None;
      }
    case _ => w := None;
  }

  /** The log is the steps that made writes, in order: entry `a` was made by one step, from the entries before it. */
  lemma {:induction false} LogIsTheSteps(reqs: nat -> Request, start: State, steps: seq<Step>, a: nat)
    returns (k: nat)
    requires Fresh(start) && a < |Run(reqs, start, steps).writes|
    ensures k < |steps| && Run(reqs, start, steps[..k]).writes == Run(reqs, start, steps).writes[..a]
    ensures MakesWrite(reqs, Run(reqs, start, steps[..k]), steps[k], Run(reqs, start, steps).writes[a])
  {
    var init, step := steps[..|steps| - 1], steps[|steps| - 1];
    var s := Run(reqs, start, init);
    var w := StepLogs(reqs, s, step);
    if a < |s.writes| {
      k := LogIsTheSteps(reqs, start, init, a);
      assert init[..k] == steps[..k];
      assert s.writes[..a] == Run(reqs, start, steps).writes[..a];
    } else {
      k := |init|;
      assert s.writes == Run(reqs, start, steps).writes[..a];
    }
  }

  /** `value` was left by the latest of the writes that set one, or is the initial one if none did. */
  ghost predicate LeftBy<T(!new)>(writes: seq<Write>, sets: Write -> Option<T>, initial: T, value: T) {
    || (value == initial && forall i :: 0 <= i < |writes| ==> sets(writes[i]).None?)
    || (exists i :: 0 <= i < |writes| && sets(writes[i]) == Some(value)
                    && forall j :: i < j < |writes| ==> sets(writes[j]).None?)
  }

  lemma OneMoreWrite<T(!new)>(writes: seq<Write>, w: Write, sets: Write -> Option<T>, initial: T, before: T)
    requires LeftBy(writes, sets, initial, before)
    ensures LeftBy(writes + [w], sets, initial, sets(w).GetOr(before))
  {
    var all := writes + [w];
    assert all[|writes|] == w;
    if sets(w).None? && exists i :: 0 <= i < |writes| && sets(writes[i]).Some? {
      var i :| 0 <= i < |writes| && sets(writes[i]) == Some(before)
               && forall j :: i < j < |writes| ==> sets(writes[j]).None?;
      assert all[i] == writes[i];
    }
  }

  /** The password hash a write leaves user `u` with: a reset's, a registration's, none after deletion. */
  ghost function SetsPassword(reqs: nat -> Request, u: string): Write -> Option<Option<string>> {
    (w: Write) =>
      match w
      case ByCall(id, user, _) =>
        if user == u && reqs(id).kind == PASSWORD_RESET then Some(Some(reqs(id).newPasswordHash)) else None
      case ByRegistration(user, hash, _) => if user == u then Some(hash) else None
      case ByLinking(_, _) => None
      case ByDeletion(user, _) => if user == u then Some(None) else None
  }

  /** The verification time a write leaves user `u` with: a verification's clock, or what registering or linking set. */
  ghost function SetsVerifiedAt(reqs: nat -> Request, u: string): Write -> Option<Option<int>> {
    (w: Write) =>
      match w
      case ByCall(id, user, at) =>
        if user == u && reqs(id).kind == EMAIL_VERIFICATION then Some(Some(at)) else None
      case ByRegistration(user, _, verifiedAt) => if user == u then Some(verifiedAt) else None
      case ByLinking(user, verified) => if user == u then Some(Some(verified)) else None
      case ByDeletion(_, _) => None
  }

  /** The deletion time a write leaves user `u` with: a deletion's clock; a new account is not deleted. */
  ghost function SetsDeletedAt(u: string): Write -> Option<Option<int>> {
    (w: Write) =>
      match w
      case ByCall(_, _, _) => None
      case ByRegistration(user, _, _) => if user == u then Some(None) else None
      case ByLinking(_, _) => None
      case ByDeletion(user, at) => if user == u then Some(Some(at)) else None
  }

  /** The user's row, all empty when there is none. */
  ghost function Row(s: State, u: string): User {
    if u in s.users then s.users[u] else User(None, None, None)
  }

  /** Each field of `u`'s row was left by the latest write of `s` that sets it. */
  ghost predicate RowIsLatest(reqs: nat -> Request, s: State, u: string, initial: User) {
    && LeftBy(s.writes, SetsPassword(reqs, u), initial.passwordHash, Row(s, u).passwordHash)
    && LeftBy(s.writes, SetsVerifiedAt(reqs, u), initial.emailVerifiedAt, Row(s, u).emailVerifiedAt)
    && LeftBy(s.writes, SetsDeletedAt(u), initial.deletedAt, Row(s, u).deletedAt)
  }

  /** What one write does to a row, field by field. */
  lemma RowAfterWrite(reqs: nat -> Request, s: State, step: Step, w: Write, u: string)
    requires MakesWrite(reqs, s, step, w)
    ensures var before, after := Row(s, u), Row(Apply(reqs, s, step), u);
      && after.passwordHash == SetsPassword(reqs, u)(w).GetOr(before.passwordHash)
      && after.emailVerifiedAt == SetsVerifiedAt(reqs, u)(w).GetOr(before.emailVerifiedAt)
      && after.deletedAt == SetsDeletedAt(u)(w).GetOr(before.deletedAt)
  {
  }

  /**
   * In every run each field of a user's row is the one set by the latest write that sets
   * it, and the initial one before any: the password by resets, registration and deletion,
   * which leaves none; the verification time by verifications, registration and linking.
   */
  lemma {:induction false} PasswordIsLatestReset(reqs: nat -> Request, start: State, steps: seq<Step>, u: string)
    requires Fresh(start)
    ensures RowIsLatest(reqs, Run(reqs, start, steps), u, Row(start, u))
  {
    if steps != [] {
      var init, step := steps[..|steps| - 1], steps[|steps| - 1];
      PasswordIsLatestReset(reqs, start, init, u);
      var s := Run(reqs, start, init);
      var w := StepLogs(reqs, s, step);
      if w.Some? {
        RowAfterWrite(reqs, s, step, w.value, u);
        OneMoreWrite(s.writes, w.value, SetsPassword(reqs, u), Row(start, u).passwordHash, Row(s, u).passwordHash);
        OneMoreWrite(
          s.writes, w.value, SetsVerifiedAt(reqs, u), Row(start, u).emailVerifiedAt, Row(s, u).emailVerifiedAt);
        OneMoreWrite(s.writes, w.value, SetsDeletedAt(u), Row(start, u).deletedAt, Row(s, u).deletedAt);
      }
    }
  }

  /** A call writes one field of one row: a verification the time, a reset the hash. */
  lemma CallWritesOneField(reqs: nat -> Request, s: State, id: nat, now: int, u: string)
    requires MakesWrite(reqs, s, WriteUser(id, now), ByCall(id, u, now))
    ensures var t, before := Apply(reqs, s, WriteUser(id, now)), s.users[u];
      && t.users == s.users[u := Row(t, u)] && t.tokens == s.tokens
      && (reqs(id).kind == EMAIL_VERIFICATION ==>
            Row(t, u).emailVerifiedAt == Some(now)
            && Row(t, u).passwordHash == before.passwordHash && Row(t, u).deletedAt == before.deletedAt)
      && (reqs(id).kind == PASSWORD_RESET ==>
            Row(t, u).passwordHash == Some(reqs(id).newPasswordHash)
            && Row(t, u).emailVerifiedAt == before.emailVerifiedAt && Row(t, u).deletedAt == before.deletedAt)
  {
  }

  // ---- what a token's row is ----

  /** At `steps[k]` token `h` was issued with this user, kind and expiry. */
  ghost predicate IssuedAs(steps: seq<Step>, k: nat, h: Hash, t: Token) {
    k < |steps| && steps[k] == Issue(h, t.userId, t.kind, t.expiresAt)
  }

  ghost predicate SameIssue(t: Token, u: Token) {
    t.userId == u.userId && t.kind == u.kind && t.expiresAt == u.expiresAt
  }

  lemma OneStepIssues(reqs: nat -> Request, s: State, step: Step, h: Hash)
    ensures var t := Apply(reqs, s, step);
      && (h in s.tokens ==> h in t.tokens && SameIssue(t.tokens[h], s.tokens[h]))
      && (h in t.tokens && h !in s.tokens ==> IssuedAs([step], 0, h, t.tokens[h]))
  {
  }

  /** A token's user, kind and expiry are those it had at the start, or else was issued with. */
  lemma {:induction false} TokensAreAsIssued(reqs: nat -> Request, start: State, steps: seq<Step>, h: Hash)
    ensures var tokens := Run(reqs, start, steps).tokens;
      && (h in start.tokens ==> h in tokens && SameIssue(tokens[h], start.tokens[h]))
      && (h in tokens && h !in start.tokens ==> exists k :: IssuedAs(steps, k, h, tokens[h]))
  {
    if steps != [] {
      var init, step := steps[..|steps| - 1], steps[|steps| - 1];
      var s := Run(reqs, start, init);
      TokensAreAsIssued(reqs, start, init, h);
      OneStepIssues(reqs, s, step, h);
      var tokens := Run(reqs, start, steps).tokens;
      if h in tokens && h !in start.tokens {
        if h in s.tokens {
          var k :| IssuedAs(init, k, h, s.tokens[h]);
          assert IssuedAs(steps, k, h, tokens[h]);
        } else {
          assert IssuedAs(steps, |init|, h, tokens[h]);
        }
      }
    }
  }

  /** Invalidation uses up exactly the user's unused e-mail tokens, and touches nothing else. */
  lemma InvalidationLaw(reqs: nat -> Request, s: State, user: string, at: int, h: Hash)
    ensures var t := Apply(reqs, s, InvalidateVerification(user, at));
      && t.users == s.users && t.calls == s.calls && t.writes == s.writes
      && (h in t.tokens <==> h in s.tokens)
      && (h in s.tokens ==>
            var row := s.tokens[h];
            var hit := row.userId == user && row.kind == EMAIL_VERIFICATION && row.usedAt == None;
            t.tokens[h] == if hit then row.(usedAt := Some(at)) else row)
  {
  }

  // ---- one call, uninterrupted ----

  /**
   * A call run alone is accepted exactly when its token exists, is of its kind, unused and
   * not expired at the read; it then uses the token and writes one field of the user's row.
   */
  lemma WholeCall(
    reqs: nat -> Request, id: nat, tokens: map<Hash, Token>, users: map<string, User>,
    readAt: int, setAt: int, writeAt: int)
    ensures var s := Run(reqs, State(tokens, users, map[], []),
                         [ReadToken(id, readAt), CompareAndSet(id, setAt), WriteUser(id, writeAt)]);
      var r := reqs(id);
      if r.token in tokens && tokens[r.token].kind == r.kind && tokens[r.token].usedAt == None
         && readAt < tokens[r.token].expiresAt
      then
        var u := tokens[r.token].userId;
        && s.tokens == tokens[r.token := tokens[r.token].(usedAt := Some(setAt))]
        && s.calls == map[id := if u in users then Done(u) else Consumed(u)]
        && (u !in users ==> s.users == users)
        && (u in users && r.kind == EMAIL_VERIFICATION ==>
              s.users == users[u := users[u].(emailVerifiedAt := Some(writeAt))])
        && (u in users && r.kind == PASSWORD_RESET ==>
              s.users == users[u := users[u].(passwordHash := Some(r.newPasswordHash))])
      else s.tokens == tokens && s.users == users && s.calls == map[id := Rejected]
  {
    ThreeSteps(reqs, State(tokens, users, map[], []),
               ReadToken(id, readAt), CompareAndSet(id, setAt), WriteUser(id, writeAt));
    var s := Apply(reqs, State(tokens, users, map[], []), ReadToken(id, readAt));
    assert id in s.calls;
  }

  /** The token and user tables. */
  class AuthService {
    var tokens: map<Hash, Token>
    var users: map<string, User>

    constructor (tokens: map<Hash, Token>, users: map<string, User>)
      ensures this.tokens == tokens && this.users == users
    {
      this.tokens := tokens;
      this.users := users;
    }

    /** The guarded update: marks the token used if it is not, and says how many rows changed. */
    method ConsumeToken(h: Hash, now: int) returns (count: nat)
      modifies this`tokens
      ensures count == if h in old(tokens) && old(tokens)[h].usedAt.None? then 1 else 0
      ensures tokens == if count == 1 then old(tokens)[h := old(tokens)[h].(usedAt := Some(now))] else old(tokens)
    {
      if h in tokens && tokens[h].usedAt.None? {
        tokens := tokens[h := tokens[h].(usedAt := Some(now))];
        count := 1;
      } else {
        count := 0;
      }
    }

    /** A verify or reset call run without interruption is its three steps. */
    method UseToken(id: nat, reqs: nat -> Request, readAt: int, setAt: int, writeAt: int) returns (ok: bool)
      modifies this
      ensures var s := Run(reqs, State(old(tokens), old(users), map[], []),
                           [ReadToken(id, readAt), CompareAndSet(id, setAt), WriteUser(id, writeAt)]);
        && tokens == s.tokens && users == s.users
        && (ok <==> id in s.calls && s.calls[id].Done?)
    {
      ThreeSteps(reqs, State(tokens, users, map[], []),
                 ReadToken(id, readAt), CompareAndSet(id, setAt), WriteUser(id, writeAt));
      var r := reqs(id);
      if !Usable(tokens, r, readAt) {
        return false;
      }
      var userId := tokens[r.token].userId;
      var count := ConsumeToken(r.token, setAt);
      if count == 0 {
        return false;
      }
      ok := userId in users;
      if ok {
        users := users[userId := UserAfter(users[userId], r, writeAt)];
      }
    }
  }

  lemma ThreeSteps(reqs: nat -> Request, s: State, a: Step, b: Step, c: Step)
    ensures Run(reqs, s, [a, b, c]) == Apply(reqs, Apply(reqs, Apply(reqs, s, a), b), c)
  {
    assert [a, b, c][..2] == [a, b];
    assert [a, b][..1] == [a];
    assert [a][..0] == [];
    assert Run(reqs, s, []) == s;
    assert Run(reqs, s, [a]) == Apply(reqs, s, a);
    assert Run(reqs, s, [a, b]) == Apply(reqs, Run(reqs, s, [a]), b);
  }
}
