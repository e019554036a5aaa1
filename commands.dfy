/** The DNS command handlers `/addcf`, `/listcf`, `/delcf` and `/updatecf`:
    each runs only when its pattern matches the message, passes the setup
    guard or answers "set up first", and otherwise issues its provider calls.
    The calls are values here; what the provider answers is not modelled, except
    that `/updatecf` takes the outcome of its GET (the record, or nothing when
    the GET failed) as a parameter. */
module Commands {
  import opened Wrappers
  import opened Text
  import opened Patterns
  import opened Sessions

  /** The zone in the request path and the bearer token in its header. */
  datatype Auth = Auth(zoneId: string, apiToken: string)

  /** The JSON body of a create or update call; a create body has no `ttl`. */
  datatype Payload = Payload(rtype: string, name: string, content: string, ttl: Option<int>, proxied: bool)

  /** A DNS record as the provider returns it. */
  datatype Record = Record(id: string, rtype: string, name: string, content: string, ttl: int, proxied: bool)

  /** One call to the provider's `zones/{zone}/dns_records` endpoint. */
  datatype Request =
    | CreateRecord(auth: Auth, body: Payload)
    | ListRecords(auth: Auth, perPage: nat)
    | GetRecord(auth: Auth, recordId: string)
    | UpdateRecord(auth: Auth, recordId: string, body: Payload)
    | DeleteRecord(auth: Auth, recordId: string)

  /** What a handler does with one message. */
  datatype Reply =
    | NotMatched                       // its pattern does not match: the handler does not run
    | SetupRequired                    // the guard failed: it asks for /start and calls nothing
    | Calls(requests: seq<Request>)    // the provider calls it makes, in order

  /** The credentials of a session that passed the guard. */
  function AuthOf(s: Option<Session>): Auth
    requires SetupReady(s)
  {
    Auth(s.value.zoneId.value, s.value.apiToken.value)
  }

  /** No call goes out without a session that passed the guard, and every call
      carries that session's zone id and token, neither of them empty. */
  predicate Authorized(s: Option<Session>, r: Reply) {
    r.Calls? ==>
      && SetupReady(s)
      && forall q :: q in r.requests ==> q.auth == AuthOf(s) && q.auth.zoneId != "" && q.auth.apiToken != ""
  }

  // ----- /addcf <name> <content> -----

  /** What `/\/addcf (.+) (.+)/` captures: the name and the content, untrimmed. */
  function AddCfArgs(text: string): Option<(string, string)> {
    Exec(text, "/addcf ", TwoArgs)
  }

  /** The body `/addcf` posts: an A record, not proxied, its TTL left to the provider. */
  function NewARecord(name: string, content: string): Payload {
    Payload("A", name, content, None, false)
  }

  /** `/addcf`: one create call when the pattern matches and the guard passes. */
  function AddCf(session: Option<Session>, text: string): (r: Reply)
    ensures Authorized(session, r)
    ensures r.NotMatched? <==> AddCfArgs(text).None?
    ensures r.SetupRequired? <==> AddCfArgs(text).Some? && !SetupReady(session)
    ensures r.Calls? ==> r.requests == [CreateRecord(AuthOf(session), NewARecord(AddCfArgs(text).value.0, AddCfArgs(text).value.1))]
  {
    match AddCfArgs(text)
    case None => NotMatched
    case Some((name, content)) =>
      if !SetupReady(session) then SetupRequired
      else Calls([CreateRecord(AuthOf(session), NewARecord(name, content))])
  }

  /** A typed `/addcf <name> <content>`, with a content that has no space
      except possibly a trailing one, creates an A record with exactly that
      name and content, untrimmed, whatever follows on later lines. */
  lemma AddCfTyped(session: Option<Session>, name: string, content: string, after: string)
    requires SetupReady(session)
    requires |name| >= 1 && forall i :: 0 <= i < |name| ==> !IsLineTerminator(name[i])
    requires |content| >= 1 && forall i :: 0 <= i < |content| ==> !IsLineTerminator(content[i])
    requires forall i :: 0 <= i < |content| - 1 ==> content[i] != ' '
    requires after == [] || IsLineTerminator(after[0])
    ensures AddCf(session, "/addcf " + name + " " + content + after)
         == Calls([CreateRecord(AuthOf(session), Payload("A", name, content, None, false))])
  {
    var rest := name + " " + content + after;
    var text := "/addcf " + name + " " + content + after;
    assert text == "/addcf " + rest;
    TypedArgs(name, content, after);
    ExecAtStart("/addcf ", rest, TwoArgs);
    assert AddCfArgs(text) == Some((name, content));
  }

  /** The split is at the last space: a name that ends in a space keeps it,
      because `/addcf` does not trim its arguments. */
  lemma AddCfKeepsSpaces(session: Option<Session>)
    requires SetupReady(session)
    ensures AddCf(session, "/addcf a  b") == Calls([CreateRecord(AuthOf(session), NewARecord("a ", "b"))])
  {
    assert "/addcf a  b" == "/addcf " + "a " + " " + "b" + "";
    AddCfTyped(session, "a ", "b", "");
  }

  /** Nor is the content trimmed: `/addcf a b ` posts the content `"b "`. */
  lemma AddCfTrailingSpace(session: Option<Session>)
    requires SetupReady(session)
    ensures AddCf(session, "/addcf a b ") == Calls([CreateRecord(AuthOf(session), NewARecord("a", "b "))])
  {
    var content := "b ";
    assert "/addcf a b " == "/addcf " + "a" + " " + content + "";
    assert forall i :: 0 <= i < |content| ==> !IsLineTerminator(content[i]);
    AddCfTyped(session, "a", content, "");
  }

  // ----- /listcf -----

  /** The page size `/listcf` asks for: one call lists at most this many records. */
  const PageSize: nat := 100

  /** `/\/listcf/`: the literal anywhere in the text. */
  predicate IsListCf(text: string) {
    Exec(text, "/listcf", AnyTail).Some?
  }

  /** `/listcf`: one list call when the guard passes. */
  function ListCf(session: Option<Session>, text: string): (r: Reply)
    ensures Authorized(session, r)
    ensures r.NotMatched? <==> !exists i :: OccursAt(text, "/listcf", i)
    ensures r.SetupRequired? <==> IsListCf(text) && !SetupReady(session)
    ensures r.Calls? ==> r.requests == [ListRecords(AuthOf(session), PageSize)]
  {
    ExecAnyTail(text, "/listcf");
    if !IsListCf(text) then NotMatched
    else if !SetupReady(session) then SetupRequired
    else Calls([ListRecords(AuthOf(session), PageSize)])
  }

  // ----- /delcf <id> -----

  /** What `/\/delcf (.+)/` captures: the rest of the line, trimmed afterwards. */
  function DelCfArg(text: string): Option<string> {
    Exec(text, "/delcf ", OneArg)
  }

  /** `/delcf`: one delete call for the trimmed record id when the guard passes. */
  function DelCf(session: Option<Session>, text: string): (r: Reply)
    ensures Authorized(session, r)
    ensures r.NotMatched? <==> DelCfArg(text).None?
    ensures r.SetupRequired? <==> DelCfArg(text).Some? && !SetupReady(session)
    ensures r.Calls? ==> r.requests == [DeleteRecord(AuthOf(session), Trim(DelCfArg(text).value))]
    ensures r.Calls? ==> Trimmed(r.requests[0].recordId)
  {
    match DelCfArg(text)
    case None => NotMatched
    case Some(id) =>
      if !SetupReady(session) then SetupRequired
      else Calls([DeleteRecord(AuthOf(session), Trim(id))])
  }

  /** A typed `/delcf <id>` deletes the record whose id is `id` trimmed. */
  lemma DelCfTyped(session: Option<Session>, id: string, after: string)
    requires SetupReady(session)
    requires |id| >= 1 && forall i :: 0 <= i < |id| ==> !IsLineTerminator(id[i])
    requires after == [] || IsLineTerminator(after[0])
    ensures DelCf(session, "/delcf " + id + after) == Calls([DeleteRecord(AuthOf(session), Trim(id))])
  {
    LineOfJoin(id, after);
    ExecAtStart("/delcf ", id + after, OneArg);
    assert "/delcf " + id + after == "/delcf " + (id + after);
  }

  // ----- /updatecf <id> <content> -----

  /** What `/\/updatecf (.+) (.+)/` captures, untrimmed. */
  function UpdateCfCaptures(text: string): Option<(string, string)> {
    Exec(text, "/updatecf ", TwoArgs)
  }

  /** The record id and the new content: the two captures, each trimmed. */
  function UpdateCfArgs(text: string): (r: Option<(string, string)>)
    ensures r.None? <==> UpdateCfCaptures(text).None?
    ensures r.Some? ==> r.value.0 == Trim(UpdateCfCaptures(text).value.0)
    ensures r.Some? ==> r.value.1 == Trim(UpdateCfCaptures(text).value.1)
    ensures r.Some? ==> Trimmed(r.value.0) && Trimmed(r.value.1)
  {
    match UpdateCfCaptures(text)
    case None => None
    case Some(args) => Some((Trim(args.0), Trim(args.1)))
  }

  /** The record's writable fields, as a request body carries them. */
  function Fields(rec: Record): Payload {
    Payload(rec.rtype, rec.name, rec.content, Some(rec.ttl), rec.proxied)
  }

  /** The body `/updatecf` puts: the fetched record's type, name, TTL and proxy
      flag with the new content. */
  function MergeContent(fetched: Record, content: string): (p: Payload)
    ensures p == Fields(fetched).(content := content)
    ensures content == fetched.content ==> p == Fields(fetched)
  {
    Payload(fetched.rtype, fetched.name, content, Some(fetched.ttl), fetched.proxied)
  }

  /** The record the provider holds after accepting a full-body update. */
  function Overwrite(rec: Record, body: Payload): Record
    requires body.ttl.Some?
  {
    Record(rec.id, body.rtype, body.name, body.content, body.ttl.value, body.proxied)
  }

  /** Putting the merged body back changes the content of the record and
      nothing else; putting it twice is putting it once. */
  lemma MergeChangesOnlyContent(fetched: Record, content: string)
    ensures Overwrite(fetched, MergeContent(fetched, content)) == fetched.(content := content)
    ensures var once := Overwrite(fetched, MergeContent(fetched, content));
      Overwrite(once, MergeContent(once, content)) == once
  {
  }

  /** `/updatecf`: a GET of the record and, when the GET succeeded, a PUT of
      the merged body under the same id, when the pattern matches and the
      guard passes. `fetched` is the record the GET returned, or `None` when
      the GET failed: axios then throws and the PUT is never sent. */
  function UpdateCf(session: Option<Session>, text: string, fetched: Option<Record>): (r: Reply)
    ensures Authorized(session, r)
    ensures r.NotMatched? <==> UpdateCfArgs(text).None?
    ensures r.SetupRequired? <==> UpdateCfArgs(text).Some? && !SetupReady(session)
    ensures r.Calls? ==> |r.requests| == (if fetched.Some? then 2 else 1)
    ensures r.Calls? ==> r.requests[0] == GetRecord(AuthOf(session), UpdateCfArgs(text).value.0)
    ensures r.Calls? && fetched.Some? ==>
      r.requests[1] == UpdateRecord(AuthOf(session), UpdateCfArgs(text).value.0,
                                    Fields(fetched.value).(content := UpdateCfArgs(text).value.1))
  {
    var args := UpdateCfArgs(text);
    if args.None? then NotMatched
    else if !SetupReady(session) then SetupRequired
    else Calls(UpdateCalls(AuthOf(session), args.value.0, args.value.1, fetched))
  }

  /** The GET, and the PUT when the GET returned the record. */
  function UpdateCalls(auth: Auth, id: string, content: string, fetched: Option<Record>): (qs: seq<Request>)
    ensures |qs| == (if fetched.Some? then 2 else 1)
    ensures qs[0] == GetRecord(auth, id)
    ensures fetched.Some? ==> qs[1] == UpdateRecord(auth, id, Fields(fetched.value).(content := content))
    ensures forall q :: q in qs ==> q.auth == auth
  {
    var get := GetRecord(auth, id);
    if fetched.None? then [get]
    else [get, UpdateRecord(auth, id, MergeContent(fetched.value, content))]
  }

  /** A typed `/updatecf <id> <content>`, with a content free of white space,
      updates the record `id` trimmed to exactly that content. */
  lemma UpdateCfTyped(session: Option<Session>, id: string, content: string, after: string, fetched: Record)
    requires SetupReady(session)
    requires |id| >= 1 && forall i :: 0 <= i < |id| ==> !IsLineTerminator(id[i])
    requires |content| >= 1 && NoSpace(content)
    requires after == [] || IsLineTerminator(after[0])
    ensures UpdateCf(session, "/updatecf " + id + " " + content + after, Some(fetched))
         == Calls([GetRecord(AuthOf(session), Trim(id)),
                   UpdateRecord(AuthOf(session), Trim(id), Fields(fetched).(content := content))])
  {
    UpdateCfArgsTyped(id, content, after);
  }

  lemma UpdateCfArgsTyped(id: string, content: string, after: string)
    requires |id| >= 1 && forall i :: 0 <= i < |id| ==> !IsLineTerminator(id[i])
    requires |content| >= 1 && NoSpace(content)
    requires after == [] || IsLineTerminator(after[0])
    ensures UpdateCfArgs("/updatecf " + id + " " + content + after) == Some((Trim(id), content))
  {
    forall i | 0 <= i < |content|
      ensures content[i] != ' ' && !IsLineTerminator(content[i])
    {
      SpaceIncludes(content[i]);
    }
    UpdateCfCapturesTyped(id, content, after);
    TrimNoSpace(content);
  }

  /** Unlike `/addcf`, `/updatecf` trims its content: a trailing space after
      the new content is not sent. */
  lemma UpdateCfTrimsContent(id: string, content: string, after: string)
    requires |id| >= 1 && forall i :: 0 <= i < |id| ==> !IsLineTerminator(id[i])
    requires |content| >= 1 && NoSpace(content)
    requires after == [] || IsLineTerminator(after[0])
    ensures UpdateCfArgs("/updatecf " + id + " " + content + " " + after) == Some((Trim(id), content))
  {
    var padded := content + " ";
    forall i | 0 <= i < |padded|
      ensures !IsLineTerminator(padded[i]) && (i < |padded| - 1 ==> padded[i] != ' ')
    {
      if i < |content| {
        SpaceIncludes(content[i]);
      }
    }
    var text := "/updatecf " + id + " " + content + " " + after;
    assert text == "/updatecf " + id + " " + padded + after;
    UpdateCfCapturesTyped(id, padded, after);
    assert UpdateCfCaptures(text) == Some((id, padded));
    TrimTrailingSpace(content);
    assert UpdateCfArgs(text) == Some((Trim(id), Trim(padded)));
  }

  lemma TrimTrailingSpace(content: string)
    requires |content| >= 1 && NoSpace(content)
    ensures Trim(content + " ") == content
  {
    SpaceIncludes(' ');
    assert AllSpace(" ") && AllSpace([]);
    assert Trimmed(content);
    assert [] + content + " " == content + " ";
    TrimPadded([], content, " ");
  }

  /** The captures of a typed `/updatecf <id> <content>` line. */
  lemma UpdateCfCapturesTyped(id: string, second: string, after: string)
    requires |id| >= 1 && forall i :: 0 <= i < |id| ==> !IsLineTerminator(id[i])
    requires |second| >= 1 && forall i :: 0 <= i < |second| ==> !IsLineTerminator(second[i])
    requires forall i :: 0 <= i < |second| - 1 ==> second[i] != ' '
    requires after == [] || IsLineTerminator(after[0])
    ensures UpdateCfCaptures("/updatecf " + id + " " + second + after) == Some((id, second))
  {
    var rest := id + " " + second + after;
    assert "/updatecf " + id + " " + second + after == "/updatecf " + rest;
    TypedArgs(id, second, after);
    ExecAtStart("/updatecf ", rest, TwoArgs);
  }

  /** The two arguments of a typed command line come back from `(.+) (.+)`. */
  lemma TypedArgs(first: string, second: string, after: string)
    requires |first| >= 1 && forall i :: 0 <= i < |first| ==> !IsLineTerminator(first[i])
    requires |second| >= 1 && forall i :: 0 <= i < |second| ==> !IsLineTerminator(second[i])
    requires forall i :: 0 <= i < |second| - 1 ==> second[i] != ' '
    requires after == [] || IsLineTerminator(after[0])
    ensures TwoArgs(first + " " + second + after) == Some((first, second))
  {
    var line := first + " " + second;
    assert forall i :: 0 <= i < |line| ==> !IsLineTerminator(line[i]) by {
      forall i | 0 <= i < |line| ensures !IsLineTerminator(line[i]) {
        if i < |first| { assert line[i] == first[i]; }
        else if i > |first| { assert line[i] == second[i - |first| - 1]; }
      }
    }
    LineOfJoin(line, after);
    assert first + " " + second + after == line + after;
    TwoArgsOfJoin(first, second, after);
  }

  /** The guard is exact for every command: when its pattern matches, a
      handler calls the provider if and only if the session passed the guard,
      and otherwise answers "set up first" and calls nothing. */
  lemma {:induction false} GuardDecides(session: Option<Session>, text: string, fetched: Option<Record>)
    ensures AddCfArgs(text).Some? ==> (AddCf(session, text).Calls? <==> SetupReady(session))
    ensures IsListCf(text) ==> (ListCf(session, text).Calls? <==> SetupReady(session))
    ensures DelCfArg(text).Some? ==> (DelCf(session, text).Calls? <==> SetupReady(session))
    ensures UpdateCfArgs(text).Some? ==> (UpdateCf(session, text, fetched).Calls? <==> SetupReady(session))
  {
  }

  /** The example line of the menu and help texts: `/addcf *.domain.com 1.2.3.4`. */
  lemma AddCfExample(session: Option<Session>)
    requires SetupReady(session)
    ensures AddCf(session, "/addcf *.domain.com 1.2.3.4")
         == Calls([CreateRecord(AuthOf(session), Payload("A", "*.domain.com", "1.2.3.4", None, false))])
  {
    var name, content := "*.domain.com", "1.2.3.4";
    assert "/addcf *.domain.com 1.2.3.4" == "/addcf " + name + " " + content + "";
    assert forall i :: 0 <= i < |name| ==> !IsLineTerminator(name[i]);
    assert forall i :: 0 <= i < |content| ==> content[i] != ' ' && !IsLineTerminator(content[i]);
    AddCfTyped(session, name, content, "");
  }
}
