/** The per-chat onboarding state machine: the process-wide map from chat id to
    session, the `/start` handler that (re)creates a chat's session, and the
    plain-text message handler that collects the account id, zone id and API
    token one message at a time. */
module Sessions {
  import opened Wrappers
  import opened Text
  import opened Patterns

  /** A Telegram chat id (`msg.chat.id`). */
  type ChatId = int

  /** The session's `step`: which credential the next plain-text message supplies. */
  datatype Step = CfAccountId | CfZoneId | CfToken | Menu

  /** One chat's session; a field the handler has not assigned yet is `None`. */
  datatype Session = Session(step: Step, accountId: Option<string>, zoneId: Option<string>, apiToken: Option<string>)

  /** The session `/start` installs: only a step, no credentials. */
  const Fresh := Session(CfAccountId, None, None, None)

  /** A session holds exactly the credentials its step implies it has been given. */
  predicate Consistent(s: Session) {
    match s.step
    case CfAccountId => s.accountId.None? && s.zoneId.None? && s.apiToken.None?
    case CfZoneId => s.accountId.Some? && s.zoneId.None? && s.apiToken.None?
    case CfToken => s.accountId.Some? && s.zoneId.Some? && s.apiToken.None?
    case Menu => s.accountId.Some? && s.zoneId.Some? && s.apiToken.Some?
  }

  /** Every credential `s` holds, `t` holds with the same value. */
  predicate Keeps(s: Session, t: Session) {
    && (s.accountId.Some? ==> t.accountId == s.accountId)
    && (s.zoneId.Some? ==> t.zoneId == s.zoneId)
    && (s.apiToken.Some? ==> t.apiToken == s.apiToken)
  }

  /** How many credentials a session holds. */
  function Held(s: Session): nat {
    (if s.accountId.Some? then 1 else 0) + (if s.zoneId.Some? then 1 else 0) + (if s.apiToken.Some? then 1 else 0)
  }

  /** The setup guard of every DNS command: a session exists and its zone id
      and API token are both present and non-empty (JavaScript truthiness of a
      string). */
  predicate SetupReady(s: Option<Session>) {
    && s.Some?
    && s.value.zoneId.Some? && s.value.zoneId.value != ""
    && s.value.apiToken.Some? && s.value.apiToken.value != ""
  }

  /** What one trimmed plain-text message does to a session. In the three
      onboarding steps it stores the text as the credential the step asks for
      and moves on, keeping every credential already held; in the menu it
      changes nothing. */
  function Onboard(s: Session, text: string): (r: Session)
    ensures Consistent(s) ==> Consistent(r)
    ensures s.step == Menu <==> r == s
    ensures Consistent(s) ==> Keeps(s, r)
    ensures Consistent(s) && s.step != Menu ==> Held(r) == Held(s) + 1
    ensures s.step != Menu ==> Some(text) in {r.accountId, r.zoneId, r.apiToken}
    ensures s.step == CfAccountId ==> r == s.(accountId := Some(text), step := CfZoneId)
    ensures s.step == CfZoneId ==> r == s.(zoneId := Some(text), step := CfToken)
    ensures s.step == CfToken ==> r == s.(apiToken := Some(text), step := Menu)
  {
    match s.step
    case CfAccountId => s.(accountId := Some(text), step := CfZoneId)
    case CfZoneId => s.(zoneId := Some(text), step := CfToken)
    case CfToken => s.(apiToken := Some(text), step := Menu)
    case Menu => s
  }

  /** Whether the `/start` handler runs: its pattern `/\/start/` is not
      anchored, so any text containing `/start` triggers it. */
  predicate StartRequested(text: string)
    ensures StartRequested(text) <==> exists i :: OccursAt(text, "/start", i)
  {
    ExecAnyTail(text, "/start");
    Exec(text, "/start", AnyTail).Some?
  }

  /** The whole map after `/start` in `chat`: that chat's session is replaced
      by a fresh one, every other chat keeps its own. */
  function Start(m: map<ChatId, Session>, chat: ChatId): (r: map<ChatId, Session>)
    ensures r.Keys == m.Keys + {chat} && r[chat] == Fresh
    ensures forall c :: c in m && c != chat ==> r[c] == m[c]
  {
    m[chat := Fresh]
  }

  /** The whole map after a message with raw text `raw` from `chat`. The map is
      left as it is for a command (the trimmed text starts with `/`), for a
      chat without a session, and for a chat already in the menu; otherwise
      only that chat's session moves one onboarding step. */
  function Receive(m: map<ChatId, Session>, chat: ChatId, raw: string): (r: map<ChatId, Session>)
    ensures r.Keys == m.Keys
    ensures forall c :: c in m && c != chat ==> r[c] == m[c]
    ensures StartsWith(Trim(raw), "/") || chat !in m || m[chat].step == Menu ==> r == m
    ensures !StartsWith(Trim(raw), "/") && chat in m ==> r[chat] == Onboard(m[chat], Trim(raw))
  {
    var text := Trim(raw);
    if StartsWith(text, "/") || chat !in m then m else m[chat := Onboard(m[chat], text)]
  }

  /** The store's invariant: every session is consistent with its step. */
  predicate AllConsistent(m: map<ChatId, Session>) {
    forall c :: c in m ==> Consistent(m[c])
  }

  /** Messages keep every session consistent with its step. */
  lemma ReceiveKeepsConsistent(m: map<ChatId, Session>, chat: ChatId, raw: string)
    requires AllConsistent(m)
    ensures AllConsistent(Receive(m, chat, raw))
  {
    var r := Receive(m, chat, raw);
    forall c | c in r
      ensures Consistent(r[c])
    {
      assert c in m;
    }
  }

  /** Only a session that has finished onboarding can pass the setup guard. */
  lemma ReadyOnlyInMenu(s: Session)
    requires Consistent(s) && SetupReady(Some(s))
    ensures s.step == Menu
  {
  }

  /** Starting over drops the credentials: right after `/start` no DNS command
      passes the guard, however far the chat had got before. */
  lemma StartRevokesSetup(m: map<ChatId, Session>, chat: ChatId)
    ensures !SetupReady(Some(Start(m, chat)[chat]))
  {
  }

  /** `/start` followed by three plain-text messages takes a chat from any
      state to the menu holding the three trimmed texts, and touches no other
      chat. */
  lemma OnboardingRun(m: map<ChatId, Session>, chat: ChatId, a: string, z: string, t: string)
    requires !StartsWith(Trim(a), "/") && !StartsWith(Trim(z), "/") && !StartsWith(Trim(t), "/")
    ensures Receive(Receive(Receive(Start(m, chat), chat, a), chat, z), chat, t)
         == m[chat := Session(Menu, Some(Trim(a)), Some(Trim(z)), Some(Trim(t)))]
  {
    var m0 := Start(m, chat);
    var m1 := Receive(m0, chat, a);
    var m2 := Receive(m1, chat, z);
    var m3 := Receive(m2, chat, t);
    assert m1 == m[chat := Session(CfZoneId, Some(Trim(a)), None, None)];
    assert m2 == m[chat := Session(CfToken, Some(Trim(a)), Some(Trim(z)), None)];
  }

  /** The run above passes the guard exactly when the zone id and the token
      are not blank. */
  lemma OnboardingRunReady(m: map<ChatId, Session>, chat: ChatId, a: string, z: string, t: string)
    requires !StartsWith(Trim(a), "/") && !StartsWith(Trim(z), "/") && !StartsWith(Trim(t), "/")
    ensures var s := Receive(Receive(Receive(Start(m, chat), chat, a), chat, z), chat, t)[chat];
      SetupReady(Some(s)) <==> Trim(z) != "" && Trim(t) != ""
  {
    OnboardingRun(m, chat, a, z, t);
  }

  /** Start, then "A1", "Z1", "T1": the chat reaches the menu with exactly
      those credentials. */
  lemma OnboardingExample(m: map<ChatId, Session>, chat: ChatId)
    ensures var r := Receive(Receive(Receive(Start(m, chat), chat, "A1"), chat, "Z1"), chat, "T1");
      r[chat] == Session(Menu, Some("A1"), Some("Z1"), Some("T1")) && SetupReady(Some(r[chat]))
  {
    ExampleWord("A1");
    ExampleWord("Z1");
    ExampleWord("T1");
    OnboardingRun(m, chat, "A1", "Z1", "T1");
    var done := Session(Menu, Some("A1"), Some("Z1"), Some("T1"));
    assert |"Z1"| == 2 && |"T1"| == 2;
    assert SetupReady(Some(done));
  }

  lemma ExampleWord(w: string)
    requires w == "A1" || w == "Z1" || w == "T1"
    ensures Trim(w) == w && !StartsWith(Trim(w), "/")
  {
    assert w[0] != '/' && !IsSpace(w[0]) && !IsSpace(w[1]);
    Verbatim(w);
  }

  /** A credential typed as one word that does not start with `/` is stored
      exactly as typed. */
  lemma Verbatim(s: string)
    requires NoSpace(s) && (s == [] || s[0] != '/')
    ensures Trim(s) == s && !StartsWith(Trim(s), "/")
  {
    TrimNoSpace(s);
    if s != [] {
      assert s[0] != "/"[0];
    }
  }

  /** The process-wide `userSession` object. */
  class SessionStore {
    var sessions: map<ChatId, Session>

    predicate Valid()
      reads this
    {
      AllConsistent(sessions)
    }

    /** The map is empty when the process starts. */
    constructor ()
      ensures Valid() && sessions == map[]
    {
      sessions := map[];
    }

    /** `userSession[chatId]`: the chat's session, if it has one. */
    function Lookup(chat: ChatId): (r: Option<Session>)
      reads this
      ensures r.Some? <==> chat in sessions
      ensures r.Some? ==> r.value == sessions[chat]
    {
      if chat in sessions then Some(sessions[chat]) else None
    }

    /** The `/start` handler: replaces the chat's session by a fresh one. */
    method OnStart(chat: ChatId)
      requires Valid()
      modifies this
      ensures Valid()
      ensures sessions == Start(old(sessions), chat)
    {
      sessions := sessions[chat := Fresh];
    }

    /** The message handler: trims the text, ignores commands and chats
        without a session, and otherwise advances the chat's onboarding. */
    method OnMessage(chat: ChatId, raw: string)
      requires Valid()
      modifies this
      ensures Valid()
      ensures sessions == Receive(old(sessions), chat, raw)
    {
      ReceiveKeepsConsistent(sessions, chat, raw);
      var text := Trim(raw);
      if StartsWith(text, "/") {
        return;
      }
      var found := Lookup(chat);
      if found.None? {
        return;
      }
      var session := found.value;
      if session.step == CfAccountId {
        assert Onboard(session, text) == session.(accountId := Some(text), step := CfZoneId);
        sessions := sessions[chat := session.(accountId := Some(text), step := CfZoneId)];
        return;
      }
      if session.step == CfZoneId {
        assert Onboard(session, text) == session.(zoneId := Some(text), step := CfToken);
        sessions := sessions[chat := session.(zoneId := Some(text), step := CfToken)];
        return;
      }
      if session.step == CfToken {
        assert Onboard(session, text) == session.(apiToken := Some(text), step := Menu);
        sessions := sessions[chat := session.(apiToken := Some(text), step := Menu)];
        return;
      }
      assert Receive(sessions, chat, raw) == sessions;
    }
  }
}
