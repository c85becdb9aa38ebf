/**
  The access decision (`wsubus_access_check_`): a certificate session is decided by the access
  list, a login may be decided by the listener's user list, everything else goes to the session
  object on the bus.
*/
module AccessCheck {
  import opened CStrings
  import opened AccessList

  const TLS_SID := "X-tls-certificate"

  datatype Tls = Plain | NoCertificate | Certificate(verified: bool)

  datatype Verdict = Next | Allow | Deny

  /** What the check returns: a decision delivered from a zero-delay timer, or a question to the
      session object. For a call of an object named like an object event the code takes the call's
      context for an event's, and what it then checks is not defined. */
  datatype Outcome = Deferred(allow: bool) | AskSession | Misread

  /** What is checked. Calls name an object and method; an event is checked under its type, with
      the object path it carries, if any. Usernames are the values of "username" arguments. */
  datatype Subject =
    | Call(name: string, method_: string, usernames: seq<string>)
    | Event(type_: string, path: Option<string>)

  function SidExtended(sid: string): Option<string> {
    if "X-" <= sid then Some(sid[2..]) else None
  }

  predicate Occurs(needle: string, s: string) {
    exists i :: 0 <= i <= |s| && needle <= s[i..]
  }

  const OBJECT_EVENT := "ubus.object."

  /** The name held against the access list: object add and remove events are checked under the
      path they announce. */
  function CheckedName(s: Subject): string {
    match s
    case Call(name, _, _) => name
    case Event(t, path) => if Occurs(OBJECT_EVENT, t) && path.Some? then path.value else t
  }

  ghost function CheckTls(tls: Tls, es: seq<string>, name: string): Verdict {
    if tls.Plain? then Next
    else if tls.NoCertificate? || !tls.verified then Deny
    else if !Allows(es, name) then Deny
    else Allow
  }

  function RestrictInterface(s: Subject, users: seq<string>): Verdict {
    if s.Call? && s.name == "session" && s.method_ == "login" && s.usernames != [] && users != [] then
      if s.usernames[0] in users then Allow else Deny
    else Next
  }

  ghost function Check(tls: Tls, es: seq<string>, users: seq<string>, sid: string, s: Subject): Outcome {
    var certified := SidExtended(sid) == Some("tls-certificate");
    if certified && s.Call? && Occurs(OBJECT_EVENT, s.name) then Misread
    else
      var first := if certified then CheckTls(tls, es, CheckedName(s)) else Next;
      if first != Next then Deferred(first == Allow)
      else
        var second := RestrictInterface(s, users);
        if second != Next then Deferred(second == Allow) else AskSession
  }

  /** Whether `ubus_lookup_cb` puts an object into a listing. */
  ghost predicate Listed(es: seq<string>, sid: string, name: string) {
    TLS_SID <= sid ==> Allows(es, name)
  }

  lemma TlsSid()
    ensures SidExtended(TLS_SID) == Some("tls-certificate")
  {
    assert TLS_SID == "X-" + "tls-certificate";
    assert TLS_SID[2..] == "tls-certificate";
  }

  /** For a peer with a verified certificate, an object is listed exactly when a call to it passes
      the check, whatever the listener's user list says, unless it is named like an object event. */
  lemma ListedMeansReachable(es: seq<string>, users: seq<string>, name: string, m: string, usernames: seq<string>)
    ensures Check(Certificate(true), es, users, TLS_SID, Call(name, m, usernames)) ==
            if Occurs(OBJECT_EVENT, name) then Misread else Deferred(Listed(es, TLS_SID, name))
  {
    TlsSid();
  }

  const ADDED := "ubus.object.add"
  const REMOVED := "ubus.object.remove"

  lemma AddAndRemoveCarryPaths()
    ensures Occurs(OBJECT_EVENT, ADDED) && Occurs(OBJECT_EVENT, REMOVED)
  {
    assert ADDED[0..] == ADDED && OBJECT_EVENT + "add" == ADDED;
    assert REMOVED[0..] == REMOVED && OBJECT_EVENT + "remove" == REMOVED;
  }

  /** And exactly when it hears of the object's coming and going. */
  lemma ListedMeansHeard(es: seq<string>, users: seq<string>, name: string)
    ensures Check(Certificate(true), es, users, TLS_SID, Event(ADDED, Some(name))) == Deferred(Listed(es, TLS_SID, name))
    ensures Check(Certificate(true), es, users, TLS_SID, Event(REMOVED, Some(name))) == Deferred(Listed(es, TLS_SID, name))
  {
    TlsSid();
    AddAndRemoveCarryPaths();
  }

  lemma OnlyThisSid(sid: string)
    ensures SidExtended(sid) == Some("tls-certificate") ==> sid == TLS_SID
  {
    if "X-" <= sid { assert sid == "X-" + sid[2..]; }
  }

  /** Without a certificate session every object is listed, and the session object decides on
      events, knowing only their type. */
  lemma SessionDecidesEvents(tls: Tls, es: seq<string>, users: seq<string>, sid: string, t: string, path: Option<string>)
    requires !(TLS_SID <= sid)
    ensures Check(tls, es, users, sid, Event(t, path)) == AskSession
    ensures forall name :: Listed(es, sid, name)
  {
    OnlyThisSid(sid);
  }

  /** A certificate session on an encrypted connection is allowed exactly when the certificate is
      verified and the list allows the object called, or the path or type of the event; a missing
      or unverified certificate is denied everything. */
  lemma CertificateDecides(tls: Tls, es: seq<string>, users: seq<string>, s: Subject)
    requires !tls.Plain? && !(s.Call? && Occurs(OBJECT_EVENT, s.name))
    ensures var o := Check(tls, es, users, TLS_SID, s);
            && o.Deferred?
            && (o == Deferred(true) <==> tls == Certificate(true) && Allows(es, CheckedName(s)))
    ensures s.Event? && s.path.Some? && (s.type_ == ADDED || s.type_ == REMOVED) ==> CheckedName(s) == s.path.value
    ensures s.Event? && !Occurs(OBJECT_EVENT, s.type_) ==> CheckedName(s) == s.type_
  {
    TlsSid();
    AddAndRemoveCarryPaths();
  }

  /** A login that the listener's user list decides. */
  predicate NamesUser(s: Subject) {
    s.Call? && s.name == "session" && s.method_ == "login" && s.usernames != []
  }

  /** Everyone else, and everyone on a plain connection: the user list decides logins that name a
      user, if there is a list, by the first name given; the session object decides all the rest. */
  lemma OthersAskSession(tls: Tls, es: seq<string>, users: seq<string>, sid: string, s: Subject)
    requires sid == TLS_SID ==> tls.Plain? && !(s.Call? && Occurs(OBJECT_EVENT, s.name))
    ensures var o := Check(tls, es, users, sid, s);
            && (o == AskSession <==> !NamesUser(s) || users == [])
            && (o == Deferred(true) <==> NamesUser(s) && users != [] && s.usernames[0] in users)
            && (o == Deferred(false) <==> NamesUser(s) && users != [] && s.usernames[0] !in users)
  {
    TlsSid();
    OnlyThisSid(sid);
  }

  /** A listing looks at no more than the beginning of the session id. */
  lemma ListedByPrefix(es: seq<string>, rest: string, name: string)
    ensures Listed(es, TLS_SID + rest, name) <==> Allows(es, name)
  {
  }
}
