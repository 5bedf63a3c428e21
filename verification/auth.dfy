/** The request decorators (auth/decorators.py): bearer-token
    authentication, the admin gate, and the activity-log append rule.

    A view is modelled as a function from the request's current user
    (`g.current_user`, `None` until authentication sets it), the store and
    the activity log to a `Run`: the view's outcome, the store it leaves and
    the log. Token decoding, the user lookup and the `is_active` flag are
    outside the model and arrive as function parameters. */
module Auth {
  import opened Values
  import opened Strings
  import opened Http
  import opened UserModel

  const BearerPrefix: string := "Bearer "

  /** The index of the first `c` in `s`, or `|s|` when there is none. */
  function FirstIndexOf(s: string, c: char): (i: nat)
    ensures i <= |s|
    ensures i < |s| ==> s[i] == c
    ensures c !in s[..i]
  {
    if |s| == 0 || s[0] == c then 0
    else
      var i := 1 + FirstIndexOf(s[1..], c);
      assert s[..i] == [s[0]] + s[1..][..i - 1];
      i
  }

  /** `auth_header.split(" ", 1)[1]` after the `startswith("Bearer ")` test:
      `None` stands for the "Missing token" reply. */
  function BearerToken(header: string): (r: Option<string>)
    ensures r.None? <==> !StartsWith(header, BearerPrefix)
    ensures r.Some? ==> header == BearerPrefix + r.value
  {
    if !StartsWith(header, BearerPrefix) then None
    else
      var i := FirstIndexOf(header, ' ');
      assert i == 6 by {
        assert header[..7] == BearerPrefix;
        forall k | 0 <= k < 6 ensures header[k] != ' ' {
          assert header[k] == header[..7][k];
        }
        assert header[6] == header[..7][6] == ' ';
        forall k | 0 <= k < i ensures header[k] != ' ' {
          assert header[k] == header[..i][k];
        }
      }
      assert header == header[..7] + header[7..];
      Some(header[i + 1..])
  }

  /** The scheme is matched case-sensitively and the token is everything
      after the first space, spaces included. */
  lemma BearerExamples()
    ensures BearerToken("Bearer a b") == Some("a b")
    ensures BearerToken("bearer abc") == None
    ensures BearerToken("Bearer") == None
    ensures BearerToken("Bearer ") == Some("")
  {
    assert "Bearer a b" == BearerPrefix + "a b";
    assert "Bearer " == BearerPrefix + "";
    assert "bearer abc"[0] != BearerPrefix[0];
  }

  /** The result of the authentication half of `jwt_required`. */
  datatype Gate = Denied(status: int, message: string) | Authenticated(user: User)

  /** `jwt_required` up to `g.current_user = user`. `decode` stands for
      `decode_token` (`None` when it raises), `resolve` for
      `User.query.get`, and `isActive` for the `is_active` attribute. */
  function Authenticate(
    header: string,
    decode: string -> Option<map<string, Value>>,
    resolve: Value -> Option<User>,
    isActive: User -> bool): (g: Gate)
    ensures g.Denied? ==> g.status == 401
    ensures !StartsWith(header, BearerPrefix) ==> g == Denied(401, "Missing token")
    ensures StartsWith(header, BearerPrefix) && decode(header[|BearerPrefix|..]).None? ==>
      g == Denied(401, "Invalid token")
    ensures g.Authenticated? <==>
      && StartsWith(header, BearerPrefix)
      && var payload := decode(header[|BearerPrefix|..]);
      && payload.Some?
      && var user := resolve(Prop(payload.value, "sub"));
      && user.Some? && isActive(user.value)
    ensures g.Authenticated? ==>
      resolve(Prop(decode(header[|BearerPrefix|..]).value, "sub")) == Some(g.user)
  {
    match BearerToken(header)
    case None => Denied(401, "Missing token")
    case Some(token) =>
      assert token == header[|BearerPrefix|..];
      match decode(token)
      case None => Denied(401, "Invalid token")
      case Some(payload) =>
        match resolve(Prop(payload, "sub"))
        case None => Denied(401, "Invalid user")
        case Some(user) => if !isActive(user) then Denied(401, "Invalid user") else Authenticated(user)
  }

  /** One row of `activity_logs`. */
  datatype LogRow = LogRow(userId: int, action: string, ipAddress: string)

  datatype Run<+T, S> = Run(outcome: Outcome<T>, state: S, log: seq<LogRow>)

  /** `jwt_required(view)`: a denial answers without running the view; on
      success the view runs with the authenticated user as current user. */
  function JwtRequired<T, S>(
    gate: Gate, state: S, log: seq<LogRow>,
    view: (Option<User>, S, seq<LogRow>) -> Run<T, S>): (r: Run<T, S>)
    ensures gate.Denied? ==>
      r == Run(Returned(Reply(gate.status, "message", gate.message)), state, log)
    ensures gate.Authenticated? ==> r == view(Some(gate.user), state, log)
  {
    match gate
    case Denied(status, message) => Run(Returned(Reply(status, "message", message)), state, log)
    case Authenticated(user) => view(Some(user), state, log)
  }

  /** `admin_required(view)`: authentication first, then the admin flag. */
  function AdminRequired<T, S>(
    gate: Gate, state: S, log: seq<LogRow>,
    view: (Option<User>, S, seq<LogRow>) -> Run<T, S>): Run<T, S>
  {
    JwtRequired(gate, state, log,
      (current: Option<User>, s: S, l: seq<LogRow>) =>
        if current.Some? && !current.value.isAdmin then
          Run(Returned(Reply(403, "message", "Forbidden")), s, l)
        else view(current, s, l))
  }

  /** Unauthenticated requests get the authentication reply; authenticated
      non-admins get 403; in neither case does the view run, so neither the
      store nor the log changes. Admins reach the view. */
  lemma AdminRequiredSpec<T, S>(
    gate: Gate, state: S, log: seq<LogRow>,
    view: (Option<User>, S, seq<LogRow>) -> Run<T, S>)
    ensures var r := AdminRequired(gate, state, log, view);
      && (gate.Denied? ==> r == JwtRequired(gate, state, log, view))
      && (gate.Authenticated? && !gate.user.isAdmin ==>
            r == Run(Returned(Reply(403, "message", "Forbidden")), state, log))
      && (gate.Authenticated? && gate.user.isAdmin ==> r == view(Some(gate.user), state, log))
  {
  }

  /** `log_activity(action)(handler)`: runs the handler, then appends one
      row for the current user, whatever status the handler answered. An
      exception or abort from the handler propagates past the append. */
  function LogActivity<T, S>(
    action: string, ipAddress: string,
    handler: (Option<User>, S) -> (Outcome<T>, S)): (view: (Option<User>, S, seq<LogRow>) -> Run<T, S>)
  {
    (current: Option<User>, s: S, l: seq<LogRow>) =>
      var (out, s') := handler(current, s);
      Run(out, s', if out.Returned? && current.Some? then l + [LogRow(current.value.id, action, ipAddress)] else l)
  }

  /** The wrapper hands back the handler's outcome and store unchanged and
      appends exactly one row (this user, this action, this address) when
      the handler returned and a current user is set; otherwise none. */
  lemma LogActivitySpec<T, S>(
    action: string, ipAddress: string,
    handler: (Option<User>, S) -> (Outcome<T>, S),
    current: Option<User>, state: S, log: seq<LogRow>)
    ensures var r := LogActivity(action, ipAddress, handler)(current, state, log);
      && r.outcome == handler(current, state).0
      && r.state == handler(current, state).1
      && |r.log| == |log| + (if r.outcome.Returned? && current.Some? then 1 else 0)
      && r.log[..|log|] == log
      && (|r.log| > |log| ==> r.log[|log|] == LogRow(current.value.id, action, ipAddress))
  {
  }

  /** A route under `jwt_required` and `log_activity` (the campaign
      routes): every authenticated request whose handler returns leaves
      one row, also when the handler answered 403 or 400. */
  lemma JwtLoggedRoute<T, S>(
    gate: Gate, action: string, ipAddress: string,
    handler: (Option<User>, S) -> (Outcome<T>, S), state: S, log: seq<LogRow>)
    ensures var r := JwtRequired(gate, state, log, LogActivity(action, ipAddress, handler));
      && (gate.Denied? ==>
            && r.log == log && r.state == state
            && r.outcome == Returned(Reply(gate.status, "message", gate.message)))
      && (gate.Authenticated? && handler(Some(gate.user), state).0.Returned? ==>
            r.log == log + [LogRow(gate.user.id, action, ipAddress)])
      && (gate.Authenticated? && !handler(Some(gate.user), state).0.Returned? ==> r.log == log)
  {
    if gate.Authenticated? {
      LogActivitySpec(action, ipAddress, handler, Some(gate.user), state, log);
    }
  }

  /** A route under `admin_required` and `log_activity` (the user routes):
      the 403 for a non-admin comes from outside the logging wrapper, so
      it leaves no row; an admin's returned request leaves exactly one. */
  lemma AdminLoggedRoute<T, S>(
    gate: Gate, action: string, ipAddress: string,
    handler: (Option<User>, S) -> (Outcome<T>, S), state: S, log: seq<LogRow>)
    ensures var r := AdminRequired(gate, state, log, LogActivity(action, ipAddress, handler));
      && (gate.Denied? || !gate.user.isAdmin ==> r.log == log && r.state == state)
      && (gate.Authenticated? && !gate.user.isAdmin ==>
            r.outcome == Returned(Reply(403, "message", "Forbidden")))
      && (gate.Authenticated? && gate.user.isAdmin && handler(Some(gate.user), state).0.Returned? ==>
            r.log == log + [LogRow(gate.user.id, action, ipAddress)])
  {
    AdminRequiredSpec(gate, state, log, LogActivity(action, ipAddress, handler));
    if gate.Authenticated? && gate.user.isAdmin {
      LogActivitySpec(action, ipAddress, handler, Some(gate.user), state, log);
    }
  }
}
