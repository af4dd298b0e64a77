/** Inviting people one by one and by a pasted list, against a store of one-time tokens. */
module Invitations {
  import opened Outcomes

  /** An invitation in the store; `invited` is the digest of the address it was issued to, if any. */
  datatype Token = Token(tenant: nat, secret: string, invited: Option<string>, createdAt: int, expiresAt: int,
                         usedAt: Option<int>)

  datatype Verdict = Ready | Malformed | RepeatedInList | AlreadyInvited | AlreadyEnrolled

  datatype Contact = Contact(raw: string, mail: Option<string>, verdict: Verdict)

  /**
   * Everything the scenarios ask of the outside: the digest of an address, whether somebody is enrolled, what the
   * `k`-th look at the clock shows, and what the settings and the generator of secrets give after `k` looks at it.
   */
  datatype Ports = Ports(digest: string -> string, knows: (nat, string) -> bool, clock: nat -> int,
                         lifetime: nat -> Attempt<int>, secret: nat -> Attempt<string>)

  /** The rows of the store and how often the clock has been looked at. */
  datatype Office = Office(rows: seq<Token>, looks: nat)

  const LIVE := Error("invitation_already_live")
  const NOT_POSITIVE := Error("token_lifetime_not_positive")

  predicate Live(token: Token, tenant: nat, invited: string, now: int) {
    token.tenant == tenant && token.invited == Some(invited) && token.usedAt.None? && now < token.expiresAt
  }

  predicate AnyLive(rows: seq<Token>, tenant: nat, invited: string, now: int) {
    exists k :: 0 <= k < |rows| && Live(rows[k], tenant, invited, now)
  }

  /** Whether the address is taken, if there is one: that takes a look at the clock. */
  function Asked(office: Office, to: Option<string>): Office {
    if to.Some? then office.(looks := office.looks + 1) else office
  }

  function DigestOf(ports: Ports, to: Option<string>): Option<string> {
    if to.Some? then Some(ports.digest(to.value)) else None
  }

  /** One invitation: the office after it and what the caller is told. */
  function Invited(ports: Ports, office: Office, tenant: nat, to: Option<string>): (Office, Attempt<Token>) {
    match ports.lifetime(office.looks)
    case Refused(error) => (office, Refused(error))
    case Thrown => (office, Thrown)
    case Value(lifetime) =>
      var asked := Asked(office, to);
      if to.Some? && AnyLive(office.rows, tenant, ports.digest(to.value), ports.clock(office.looks)) then
        (asked, Refused(LIVE))
      else
        match ports.secret(asked.looks)
        case Refused(error) => (asked, Refused(error))
        case Thrown => (asked, Thrown)
        case Value(secret) =>
          var now := ports.clock(asked.looks);
          var token := Token(tenant, secret, DigestOf(ports, to), now, now + lifetime, None);
          if lifetime <= 0 then (asked.(looks := asked.looks + 1), Refused(NOT_POSITIVE))
          else (Office(office.rows + [token], asked.looks + 1), Value(token))
  }

  predicate IsReady(line: Contact) {
    line.verdict.Ready? && line.mail.Some?
  }

  function JudgedLine(ports: Ports, rows: seq<Token>, now: int, tenant: nat, line: Contact): Contact {
    if !IsReady(line) then line
    else if ports.knows(tenant, line.mail.value) then line.(verdict := AlreadyEnrolled)
    else if AnyLive(rows, tenant, ports.digest(line.mail.value), now) then line.(verdict := AlreadyInvited)
    else line
  }

  function JudgedLines(ports: Ports, rows: seq<Token>, now: int, tenant: nat, lines: seq<Contact>)
    : (judged: seq<Contact>)
    ensures |judged| == |lines|
  {
    seq(|lines|, k requires 0 <= k < |lines| => JudgedLine(ports, rows, now, tenant, lines[k]))
  }

  /** The addresses of the lines that will be invited. */
  function ReadyMails(lines: seq<Contact>): seq<string> {
    if lines == [] then []
    else (if IsReady(lines[0]) then [lines[0].mail.value] else []) + ReadyMails(lines[1..])
  }

  /** One invitation after another, up to the first that fails. */
  function InvitedAll(ports: Ports, office: Office, tenant: nat, mails: seq<string>): (Office, Attempt<seq<Token>>)
    decreases |mails|
  {
    if mails == [] then (office, Value([]))
    else
      var (next, first) := Invited(ports, office, tenant, Some(mails[0]));
      match first
      case Refused(error) => (next, Refused(error))
      case Thrown => (next, Thrown)
      case Value(token) =>
        var (last, rest) := InvitedAll(ports, next, tenant, mails[1..]);
        (last, if rest.Value? then Value([token] + rest.value) else rest)
  }

  function Sent(ports: Ports, office: Office, tenant: nat, previewed: seq<Contact>): (Office, Attempt<seq<Token>>) {
    var judged := JudgedLines(ports, office.rows, ports.clock(office.looks), tenant, previewed);
    InvitedAll(ports, office.(looks := office.looks + 1), tenant, ReadyMails(judged))
  }

  class Desk {
    const ports: Ports
    var office: Office

    constructor (ports: Ports)
      ensures this.ports == ports && office == Office([], 0)
    {
      this.ports := ports;
      office := Office([], 0);
    }

    method Now() returns (now: int)
      modifies this
      ensures now == ports.clock(old(office.looks)) && office == old(office).(looks := old(office.looks) + 1)
    {
      now := ports.clock(office.looks);
      office := office.(looks := office.looks + 1);
    }

    method LiveInvitationTo(tenant: nat, invited: string, now: int) returns (found: Option<Token>)
      ensures found.Some? <==> AnyLive(office.rows, tenant, invited, now)
      ensures found.Some? ==> found.value in office.rows && Live(found.value, tenant, invited, now)
    {
      for k := 0 to |office.rows|
        invariant forall j :: 0 <= j < k ==> !Live(office.rows[j], tenant, invited, now)
      {
        if Live(office.rows[k], tenant, invited, now) {
          return Some(office.rows[k]);
        }
      }
      return None;
    }

    method Issue(token: Token)
      modifies this
      ensures office == old(office).(rows := old(office.rows) + [token])
    {
      office := office.(rows := office.rows + [token]);
    }

    method Execute(tenant: nat, to: Option<string>) returns (issued: Attempt<Token>)
      modifies this
      ensures (office, issued) == Invited(ports, old(office), tenant, to)
    {
      var lifetime := ports.lifetime(office.looks);
      if !lifetime.Value? {
        return if lifetime.Thrown? then Thrown else Refused(lifetime.error);
      }
      var invited: Option<string> := None;
      if to.Some? {
        invited := Some(ports.digest(to.value));
        var now := Now();
        var live := LiveInvitationTo(tenant, invited.value, now);
        if live.Some? {
          return Refused(LIVE);
        }
      }
      var secret := ports.secret(office.looks);
      if !secret.Value? {
        return if secret.Thrown? then Thrown else Refused(secret.error);
      }
      var now := Now();
      if lifetime.value <= 0 {
        return Refused(NOT_POSITIVE);
      }
      var token := Token(tenant, secret.value, invited, now, now + lifetime.value, None);
      Issue(token);
      return Value(token);
    }

    method Judge(tenant: nat, parsed: seq<Contact>) returns (judged: seq<Contact>)
      modifies this
      ensures judged == JudgedLines(ports, old(office.rows), ports.clock(old(office.looks)), tenant, parsed)
      ensures office == old(office).(looks := old(office.looks) + 1)
    {
      var now := Now();
      judged := [];
      for k := 0 to |parsed|
        invariant judged == JudgedLines(ports, office.rows, now, tenant, parsed)[..k]
        invariant office == old(office).(looks := old(office.looks) + 1)
      {
        var line := parsed[k];
        if !IsReady(line) {
          judged := judged + [line];
          continue;
        }
        if ports.knows(tenant, line.mail.value) {
          judged := judged + [line.(verdict := AlreadyEnrolled)];
          continue;
        }
        var live := LiveInvitationTo(tenant, ports.digest(line.mail.value), now);
        if live.Some? {
          judged := judged + [line.(verdict := AlreadyInvited)];
          continue;
        }
        judged := judged + [line];
      }
    }

    method Send(tenant: nat, previewed: seq<Contact>) returns (sent: Attempt<seq<Token>>)
      modifies this
      ensures (office, sent) == Sent(ports, old(office), tenant, previewed)
    {
      var judged := Judge(tenant, previewed);
      var tokens: seq<Token> := [];
      ghost var start := office;
      NothingDone(InvitedAll(ports, office, tenant, ReadyMails(judged)));
      assert judged[0..] == judged;
      for k := 0 to |judged|
        invariant Prepend(tokens, InvitedAll(ports, office, tenant, ReadyMails(judged[k..])))
                  == InvitedAll(ports, start, tenant, ReadyMails(judged))
      {
        var line := judged[k];
        OneMoreLine(ports, office, tenant, judged, k, tokens);
        if IsReady(line) {
          var issued := Execute(tenant, line.mail);
          if !issued.Value? {
            return if issued.Thrown? then Thrown else Refused(issued.error);
          }
          tokens := tokens + [issued.value];
        }
      }
      assert judged[|judged|..] == [] && tokens + [] == tokens;
      return Value(tokens);
    }
  }

  /** What the loop returns when `done` was issued before the rest. */
  function Prepend(done: seq<Token>, rest: (Office, Attempt<seq<Token>>)): (Office, Attempt<seq<Token>>) {
    (rest.0, if rest.1.Value? then Value(done + rest.1.value) else rest.1)
  }

  lemma NothingDone(rest: (Office, Attempt<seq<Token>>))
    ensures Prepend([], rest) == rest
  {
    if rest.1.Value? { assert [] + rest.1.value == rest.1.value; }
  }

  lemma OneMoreLine(ports: Ports, office: Office, tenant: nat, judged: seq<Contact>, k: nat, done: seq<Token>)
    requires k < |judged|
    ensures Prepend(done, InvitedAll(ports, office, tenant, ReadyMails(judged[k..])))
            == if !IsReady(judged[k]) then Prepend(done, InvitedAll(ports, office, tenant, ReadyMails(judged[k + 1..])))
               else
                 var (next, first) := Invited(ports, office, tenant, judged[k].mail);
                 match first
                 case Refused(error) => (next, Refused(error))
                 case Thrown => (next, Thrown)
                 case Value(token) => Prepend(done + [token],
                                              InvitedAll(ports, next, tenant, ReadyMails(judged[k + 1..])))
  {
    var rest := judged[k..];
    assert rest[1..] == judged[k + 1..];
    if IsReady(judged[k]) {
      var mails := ReadyMails(rest);
      assert mails[1..] == ReadyMails(rest[1..]);
      var (next, first) := Invited(ports, office, tenant, judged[k].mail);
      if first.Value? {
        var later := InvitedAll(ports, next, tenant, mails[1..]).1;
        if later.Value? { assert done + ([first.value] + later.value) == done + [first.value] + later.value; }
      }
    } else {
      assert ReadyMails(rest) == ReadyMails(rest[1..]);
    }
  }

  // ----- at most one live invitation, over any history of scenarios that run one after another

  datatype Event =
    | Invite(tenant: nat, to: Option<string>)
    | SendTo(tenant: nat, previewed: seq<Contact>)
    | Use(k: nat)                                     // somebody follows the k-th link, if it still works

  function Happened(ports: Ports, office: Office, event: Event): Office {
    match event
    case Invite(tenant, to) => Invited(ports, office, tenant, to).0
    case SendTo(tenant, previewed) => Sent(ports, office, tenant, previewed).0
    case Use(k) =>
      var now := ports.clock(office.looks);
      var looked := office.(looks := office.looks + 1);
      if k < |office.rows| && office.rows[k].usedAt.None? && now < office.rows[k].expiresAt
      then looked.(rows := office.rows[k := office.rows[k].(usedAt := Some(now))])
      else looked
  }

  function After(ports: Ports, office: Office, events: seq<Event>): Office
    decreases |events|
  {
    if events == [] then office else After(ports, Happened(ports, office, events[0]), events[1..])
  }

  /** The clock never goes back. */
  ghost predicate Forward(ports: Ports) {
    forall j: nat, k: nat :: j <= k ==> ports.clock(j) <= ports.clock(k)
  }

  /** The token was live at this moment of its life. */
  predicate LiveAt(token: Token, moment: int) {
    token.createdAt <= moment < token.expiresAt && (token.usedAt.Some? ==> moment < token.usedAt.value)
  }

  predicate OverBy(token: Token, moment: int) {
    token.expiresAt <= moment || (token.usedAt.Some? && token.usedAt.value <= moment)
  }

  predicate SameAddressee(one: Token, other: Token) {
    one.tenant == other.tenant && one.invited.Some? && one.invited == other.invited
  }

  /** Of two invitations to one addressee the earlier is over before the later begins; the store holds no future. */
  ghost predicate InTurn(rows: seq<Token>, now: int) {
    (forall i, j :: 0 <= i < j < |rows| && SameAddressee(rows[i], rows[j]) ==> OverBy(rows[i], rows[j].createdAt)) &&
    (forall i :: 0 <= i < |rows| && rows[i].usedAt.Some? ==> rows[i].usedAt.value <= now) &&
    (forall i :: 0 <= i < |rows| ==> rows[i].createdAt <= now)
  }

  /** The clock will show nothing earlier than what the store already holds. */
  ghost predicate OfficeOk(ports: Ports, office: Office) {
    InTurn(office.rows, ports.clock(office.looks))
  }

  lemma OneMoreInTurn(rows: seq<Token>, token: Token, asked: int, now: int)
    requires InTurn(rows, asked) && asked <= now && token.createdAt == now && token.usedAt.None?
    requires token.invited.Some? ==> !AnyLive(rows, token.tenant, token.invited.value, asked)
    ensures InTurn(rows + [token], now)
  {
    var more := rows + [token];
    forall i, j | 0 <= i < j < |more| && SameAddressee(more[i], more[j])
      ensures OverBy(more[i], more[j].createdAt)
    {
      if j == |rows| { assert !Live(rows[i], token.tenant, token.invited.value, asked); }
    }
  }

  lemma InvitingKeepsOrder(ports: Ports, office: Office, tenant: nat, to: Option<string>)
    requires Forward(ports) && OfficeOk(ports, office)
    ensures OfficeOk(ports, Invited(ports, office, tenant, to).0)
    ensures office.looks <= Invited(ports, office, tenant, to).0.looks
  {
    var (next, result) := Invited(ports, office, tenant, to);
    var start, last := ports.clock(office.looks), ports.clock(next.looks);
    if result.Value? {
      var now := result.value.createdAt;
      assert now == ports.clock(Asked(office, to).looks);
      OneMoreInTurn(office.rows, result.value, start, now);
    } else {
    }
  }

  lemma {:induction false} InvitingAllKeepsOrder(ports: Ports, office: Office, tenant: nat, mails: seq<string>)
    requires Forward(ports) && OfficeOk(ports, office)
    ensures OfficeOk(ports, InvitedAll(ports, office, tenant, mails).0)
    decreases |mails|
  {
    if mails != [] {
      InvitingKeepsOrder(ports, office, tenant, Some(mails[0]));
      if Invited(ports, office, tenant, Some(mails[0])).1.Value? {
        InvitingAllKeepsOrder(ports, Invited(ports, office, tenant, Some(mails[0])).0, tenant, mails[1..]);
      }
    }
  }

  lemma UseKeepsOrder(rows: seq<Token>, k: nat, now: int)
    requires InTurn(rows, now) && k < |rows| && rows[k].usedAt.None? && now < rows[k].expiresAt
    ensures InTurn(rows[k := rows[k].(usedAt := Some(now))], now)
  {
    var more := rows[k := rows[k].(usedAt := Some(now))];
    forall i, j | 0 <= i < j < |more| && SameAddressee(more[i], more[j])
      ensures OverBy(more[i], more[j].createdAt)
    {
      assert SameAddressee(rows[i], rows[j]) && OverBy(rows[i], rows[j].createdAt);
    }
  }

  lemma EventKeepsOrder(ports: Ports, office: Office, event: Event)
    requires Forward(ports) && OfficeOk(ports, office)
    ensures OfficeOk(ports, Happened(ports, office, event))
  {
    var now, next := ports.clock(office.looks), ports.clock(office.looks + 1);
    match event
    case Invite(tenant, to) => InvitingKeepsOrder(ports, office, tenant, to);
    case SendTo(tenant, previewed) =>
      var judged := JudgedLines(ports, office.rows, now, tenant, previewed);
      InvitingAllKeepsOrder(ports, office.(looks := office.looks + 1), tenant, ReadyMails(judged));
    case Use(k) =>
      if k < |office.rows| && office.rows[k].usedAt.None? && now < office.rows[k].expiresAt {
        UseKeepsOrder(office.rows, k, now);
      }
  }

  lemma {:induction false} OrderAlways(ports: Ports, office: Office, events: seq<Event>)
    requires Forward(ports) && OfficeOk(ports, office)
    ensures OfficeOk(ports, After(ports, office, events))
    decreases |events|
  {
    if events != [] {
      EventKeepsOrder(ports, office, events[0]);
      OrderAlways(ports, Happened(ports, office, events[0]), events[1..]);
    }
  }

  /** One scenario after another, and a clock that does not go back: no address has two live invitations at once. */
  lemma AtMostOneLiveAtAnyMoment(ports: Ports, events: seq<Event>, i: nat, j: nat, moment: int)
    requires Forward(ports) && i < j < |After(ports, Office([], 0), events).rows|
    requires SameAddressee(After(ports, Office([], 0), events).rows[i], After(ports, Office([], 0), events).rows[j])
    ensures var rows := After(ports, Office([], 0), events).rows; !(LiveAt(rows[i], moment) && LiveAt(rows[j], moment))
  {
    OrderAlways(ports, Office([], 0), events);
  }

  // ----- a list sent while the clock stands still

  /** The clock shows one moment, and settings and secrets are always to be had. */
  ghost predicate Still(ports: Ports, now: int) {
    && (forall k: nat :: ports.clock(k) == now)
    && (forall k: nat :: ports.lifetime(k).Value? && ports.lifetime(k).value > 0 && ports.secret(k).Value?)
  }

  ghost predicate Free(ports: Ports, rows: seq<Token>, now: int, tenant: nat, mail: string) {
    !AnyLive(rows, tenant, ports.digest(mail), now)
  }

  ghost predicate AllFree(ports: Ports, rows: seq<Token>, now: int, tenant: nat, mails: seq<string>) {
    forall k :: 0 <= k < |mails| ==> Free(ports, rows, now, tenant, mails[k])
  }

  ghost predicate AllDifferent(ports: Ports, mails: seq<string>) {
    forall i, j :: 0 <= i < j < |mails| ==> ports.digest(mails[i]) != ports.digest(mails[j])
  }

  /** Exactly these addresses were invited, in this order, by exactly these new rows. */
  ghost predicate InvitedExactly(ports: Ports, before: seq<Token>, after: seq<Token>, now: int, tenant: nat,
                                 mails: seq<string>, tokens: seq<Token>) {
    && after == before + tokens && |tokens| == |mails|
    && forall k :: 0 <= k < |mails| ==> IssuedTo(ports, tokens[k], now, tenant, mails[k])
  }

  ghost predicate IssuedTo(ports: Ports, token: Token, now: int, tenant: nat, mail: string) {
    token.createdAt == now && Live(token, tenant, ports.digest(mail), now)
  }

  lemma FreeAmongMore(ports: Ports, rows: seq<Token>, token: Token, now: int, tenant: nat, first: string, mail: string)
    requires IssuedTo(ports, token, now, tenant, first)
    ensures Free(ports, rows + [token], now, tenant, mail)
            <==> Free(ports, rows, now, tenant, mail) && ports.digest(mail) != ports.digest(first)
  {
    assert (rows + [token])[|rows|] == token;
    forall k | 0 <= k < |rows|
      ensures (rows + [token])[k] == rows[k]
    {
    }
  }

  lemma RestIsFreeIff(ports: Ports, rows: seq<Token>, token: Token, now: int, tenant: nat, mails: seq<string>)
    requires mails != [] && IssuedTo(ports, token, now, tenant, mails[0]) && Free(ports, rows, now, tenant, mails[0])
    ensures AllFree(ports, rows + [token], now, tenant, mails[1..]) && AllDifferent(ports, mails[1..])
            <==> AllFree(ports, rows, now, tenant, mails) && AllDifferent(ports, mails)
  {
    forall k | 0 < k < |mails|
      ensures Free(ports, rows + [token], now, tenant, mails[1..][k - 1])
              <==> Free(ports, rows, now, tenant, mails[k]) && ports.digest(mails[0]) != ports.digest(mails[k])
    {
      FreeAmongMore(ports, rows, token, now, tenant, mails[0], mails[k]);
    }
    assert forall k :: 0 < k < |mails| ==> mails[1..][k - 1] == mails[k];
  }

  /** A list goes out as a whole exactly when all its addresses are free and different. */
  lemma {:induction false} InvitedAllIff(ports: Ports, office: Office, now: int, tenant: nat, mails: seq<string>)
    requires Still(ports, now)
    ensures var (next, result) := InvitedAll(ports, office, tenant, mails);
            && (result.Value? <==> AllFree(ports, office.rows, now, tenant, mails) && AllDifferent(ports, mails))
            && (result.Value? ==> InvitedExactly(ports, office.rows, next.rows, now, tenant, mails, result.value))
    decreases |mails|
  {
    if mails != [] {
      var (one, first) := Invited(ports, office, tenant, Some(mails[0]));
      if first.Value? {
        InvitedAllIff(ports, one, now, tenant, mails[1..]);
        RestIsFreeIff(ports, office.rows, first.value, now, tenant, mails);
        var (last, rest) := InvitedAll(ports, one, tenant, mails[1..]);
        if rest.Value? { OneMoreExactly(ports, office.rows, last.rows, now, tenant, mails, first.value, rest.value); }
      }
    }
  }

  lemma OneMoreExactly(ports: Ports, before: seq<Token>, after: seq<Token>, now: int, tenant: nat, mails: seq<string>,
                       first: Token, rest: seq<Token>)
    requires mails != [] && IssuedTo(ports, first, now, tenant, mails[0])
    requires InvitedExactly(ports, before + [first], after, now, tenant, mails[1..], rest)
    ensures InvitedExactly(ports, before, after, now, tenant, mails, [first] + rest)
  {
    assert before + [first] + rest == before + ([first] + rest);
    forall k | 0 <= k < |mails|
      ensures IssuedTo(ports, ([first] + rest)[k], now, tenant, mails[k])
    {
      if k > 0 { assert IssuedTo(ports, rest[k - 1], now, tenant, mails[1..][k - 1]); }
    }
  }

  lemma {:induction false} JudgedMailsAreFree(ports: Ports, rows: seq<Token>, now: int, tenant: nat,
                                              judged: seq<Contact>)
    requires forall k :: 0 <= k < |judged| && IsReady(judged[k]) ==>
               Free(ports, rows, now, tenant, judged[k].mail.value)
    ensures AllFree(ports, rows, now, tenant, ReadyMails(judged))
  {
    if judged != [] { JudgedMailsAreFree(ports, rows, now, tenant, judged[1..]); }
  }

  /**
   * While the clock stands still, sending a list succeeds exactly when the lines that are still ready after the second
   * judgement go to different addresses, and then it issues exactly one token a line.
   */
  lemma SendIssuesOneTokenALine(ports: Ports, office: Office, now: int, tenant: nat, previewed: seq<Contact>)
    requires Still(ports, now)
    ensures var mails := ReadyMails(JudgedLines(ports, office.rows, now, tenant, previewed));
            var (next, result) := Sent(ports, office, tenant, previewed);
            && (result.Value? <==> AllDifferent(ports, mails))
            && (result.Value? ==> InvitedExactly(ports, office.rows, next.rows, now, tenant, mails, result.value))
  {
    var judged := JudgedLines(ports, office.rows, now, tenant, previewed);
    JudgedMailsAreFree(ports, office.rows, now, tenant, judged);
    InvitedAllIff(ports, office.(looks := office.looks + 1), now, tenant, ReadyMails(judged));
  }

  // ----- what is judged and what is issued, from the directory and the store

  /** Nobody is enrolled under this address, and every invitation of this tenant to it is used or over. */
  ghost predicate Invitable(ports: Ports, rows: seq<Token>, now: int, tenant: nat, mail: string) {
    !ports.knows(tenant, mail) &&
    forall j :: 0 <= j < |rows| && rows[j].tenant == tenant && rows[j].invited == Some(ports.digest(mail)) ==>
      rows[j].usedAt.Some? || rows[j].expiresAt <= now
  }

  lemma InvitableIff(ports: Ports, rows: seq<Token>, now: int, tenant: nat, mail: string)
    ensures Invitable(ports, rows, now, tenant, mail)
            <==> !ports.knows(tenant, mail) && !AnyLive(rows, tenant, ports.digest(mail), now)
  {
    var invited := ports.digest(mail);
    forall j | 0 <= j < |rows|
      ensures Live(rows[j], tenant, invited, now)
              <==> rows[j].tenant == tenant && rows[j].invited == Some(invited) && rows[j].usedAt.None?
                   && now < rows[j].expiresAt
    {
    }
  }

  /**
   * The verdicts of a list: a line without an address, or judged before, stays as it is; of the others, enrolled are
   * exactly those that are known, invited those that are not and hold a live invitation, and ready the rest.
   */
  lemma VerdictsAreExact(ports: Ports, rows: seq<Token>, now: int, tenant: nat, lines: seq<Contact>, k: nat)
    requires k < |lines|
    ensures var line, judged := lines[k], JudgedLines(ports, rows, now, tenant, lines)[k];
            && judged == line.(verdict := judged.verdict)
            && (line.verdict != Ready || line.mail.None? ==> judged == line)
            && (line.verdict == Ready && line.mail.Some? ==>
                  var mail := line.mail.value;
                  && (judged.verdict == AlreadyEnrolled <==> ports.knows(tenant, mail))
                  && (judged.verdict == Ready <==> Invitable(ports, rows, now, tenant, mail))
                  && judged.verdict in {Ready, AlreadyEnrolled, AlreadyInvited})
  {
    if IsReady(lines[k]) { InvitableIff(ports, rows, now, tenant, lines[k].mail.value); }
  }

  /** Some line of the list was ready, and its address may be invited: such a token may be issued. */
  ghost predicate MayBeIssued(ports: Ports, rows: seq<Token>, now: int, tenant: nat, lines: seq<Contact>,
                              token: Token) {
    exists k :: 0 <= k < |lines| && IsFor(ports, rows, now, tenant, lines[k], token)
  }

  ghost predicate IsFor(ports: Ports, rows: seq<Token>, now: int, tenant: nat, line: Contact, token: Token) {
    && line.verdict == Ready && line.mail.Some? && Invitable(ports, rows, now, tenant, line.mail.value)
    && token.tenant == tenant && token.invited == Some(ports.digest(line.mail.value)) && token.usedAt.None?
  }

  lemma OneReadyFirst(line: Contact, rest: seq<Contact>)
    ensures ReadyMails([line] + rest)
            == (if line.verdict == Ready && line.mail.Some? then [line.mail.value] else []) + ReadyMails(rest)
  {
    assert ([line] + rest)[1..] == rest;
  }

  /** The addresses to be invited are those of the ready lines, each in its place. */
  lemma {:induction false} ReadyTogether(before: seq<Contact>, after: seq<Contact>)
    ensures ReadyMails(before + after) == ReadyMails(before) + ReadyMails(after)
  {
    if before == [] {
      assert before + after == after;
    } else {
      var first, rest := before[0], before[1..];
      assert before == [first] + rest && before + after == [first] + (rest + after);
      OneReadyFirst(first, rest);
      OneReadyFirst(first, rest + after);
      ReadyTogether(rest, after);
    }
  }

  lemma {:induction false} ReadyMailsAreLines(lines: seq<Contact>, mail: string)
    ensures mail in ReadyMails(lines)
            <==> exists k :: 0 <= k < |lines| && lines[k].verdict == Ready && lines[k].mail == Some(mail)
  {
    if lines != [] {
      ReadyMailsAreLines(lines[1..], mail);
      var ready := lines[0].verdict == Ready && lines[0].mail == Some(mail);
      assert mail in ReadyMails(lines) <==> ready || mail in ReadyMails(lines[1..]);
      if k :| 0 <= k < |lines[1..]| && lines[1..][k].verdict == Ready && lines[1..][k].mail == Some(mail) {
        assert lines[k + 1].verdict == Ready && lines[k + 1].mail == Some(mail);
      }
      if k :| 0 < k < |lines| && lines[k].verdict == Ready && lines[k].mail == Some(mail) {
        assert lines[1..][k - 1].verdict == Ready && lines[1..][k - 1].mail == Some(mail);
      }
    }
  }

  lemma {:induction false} IssuedAreForMails(ports: Ports, office: Office, tenant: nat, mails: seq<string>)
    ensures var next := InvitedAll(ports, office, tenant, mails).0;
            && office.rows <= next.rows
            && forall j :: |office.rows| <= j < |next.rows| ==> ForOneOf(ports, tenant, mails, next.rows[j])
    decreases |mails|
  {
    if mails != [] {
      var (next, first) := Invited(ports, office, tenant, Some(mails[0]));
      if first.Value? {
        IssuedAreForMails(ports, next, tenant, mails[1..]);
        var last := InvitedAll(ports, office, tenant, mails).0;
        assert ForMail(ports, tenant, mails[0], first.value);
        forall j | |office.rows| <= j < |last.rows|
          ensures ForOneOf(ports, tenant, mails, last.rows[j])
        {
          if j == |office.rows| {
            assert last.rows[j] == first.value;
          } else {
            assert ForOneOf(ports, tenant, mails[1..], last.rows[j]);
            var k :| 0 <= k < |mails[1..]| && ForMail(ports, tenant, mails[1..][k], last.rows[j]);
            assert ForMail(ports, tenant, mails[k + 1], last.rows[j]);
          }
        }
      }
    }
  }

  ghost predicate ForOneOf(ports: Ports, tenant: nat, mails: seq<string>, token: Token) {
    exists k :: 0 <= k < |mails| && ForMail(ports, tenant, mails[k], token)
  }

  ghost predicate ForMail(ports: Ports, tenant: nat, mail: string, token: Token) {
    token.tenant == tenant && token.invited == Some(ports.digest(mail)) && token.usedAt.None?
  }

  /**
   * Whatever else happens, and however far a list gets: nothing is taken from the store, and every token that is added
   * is for a line that was ready, whose address nobody is enrolled under and nobody holds a live invitation to.
   */
  lemma NobodyKnownIsInvited(ports: Ports, office: Office, tenant: nat, previewed: seq<Contact>)
    ensures var next := Sent(ports, office, tenant, previewed).0;
            && office.rows <= next.rows
            && forall j :: |office.rows| <= j < |next.rows| ==>
                 MayBeIssued(ports, office.rows, ports.clock(office.looks), tenant, previewed, next.rows[j])
  {
    var now := ports.clock(office.looks);
    var judged := JudgedLines(ports, office.rows, now, tenant, previewed);
    var mails, next := ReadyMails(judged), Sent(ports, office, tenant, previewed).0;
    IssuedAreForMails(ports, office.(looks := office.looks + 1), tenant, mails);
    forall j | |office.rows| <= j < |next.rows|
      ensures MayBeIssued(ports, office.rows, now, tenant, previewed, next.rows[j])
    {
      assert ForOneOf(ports, tenant, mails, next.rows[j]);
      var m :| 0 <= m < |mails| && ForMail(ports, tenant, mails[m], next.rows[j]);
      ReadyMailsAreLines(judged, mails[m]);
      var k :| 0 <= k < |judged| && judged[k].verdict == Ready && judged[k].mail == Some(mails[m]);
      VerdictsAreExact(ports, office.rows, now, tenant, previewed, k);
      assert IsFor(ports, office.rows, now, tenant, previewed[k], next.rows[j]);
    }
  }

  /** Settings, secret and address allow an invitation, as the clock is looked at on the way. */
  ghost predicate Allowed(ports: Ports, office: Office, tenant: nat, to: Option<string>) {
    var looks := if to.Some? then office.looks + 1 else office.looks;
    && ports.lifetime(office.looks).Value? && ports.lifetime(office.looks).value > 0 && ports.secret(looks).Value?
    && (to.Some? ==>
          forall j :: 0 <= j < |office.rows| && office.rows[j].tenant == tenant
                      && office.rows[j].invited == Some(ports.digest(to.value)) ==>
            office.rows[j].usedAt.Some? || office.rows[j].expiresAt <= ports.clock(office.looks))
  }

  /** An invitation is issued exactly if it is allowed: one token, for this address, for as long as the settings say. */
  lemma IssuedIffAllowed(ports: Ports, office: Office, tenant: nat, to: Option<string>)
    ensures var (next, issued) := Invited(ports, office, tenant, to);
            && (issued.Value? <==> Allowed(ports, office, tenant, to))
            && (!issued.Value? ==> next.rows == office.rows)
            && (issued.Value? ==>
                  var token := issued.value;
                  && next.rows == office.rows + [token]
                  && token.tenant == tenant && token.usedAt.None?
                  && Value(token.secret) == ports.secret(next.looks - 1)
                  && token.createdAt == ports.clock(next.looks - 1)
                  && Value(token.expiresAt - token.createdAt) == ports.lifetime(office.looks)
                  && (if to.Some? then token.invited == Some(ports.digest(to.value)) else token.invited == None))
  {
    if to.Some? {
      var invited := ports.digest(to.value);
      forall j | 0 <= j < |office.rows|
        ensures Live(office.rows[j], tenant, invited, ports.clock(office.looks))
                <==> office.rows[j].tenant == tenant && office.rows[j].invited == Some(invited)
                     && office.rows[j].usedAt.None? && ports.clock(office.looks) < office.rows[j].expiresAt
      {
      }
    }
  }

  /** What stands in the way is told: the settings first, then the live invitation, the secret, and the lifetime. */
  lemma RefusalsInOrder(ports: Ports, office: Office, tenant: nat, to: Option<string>)
    ensures var issued := Invited(ports, office, tenant, to).1;
            var looks := if to.Some? then office.looks + 1 else office.looks;
            var lifetime, secret := ports.lifetime(office.looks), ports.secret(looks);
            var live := to.Some? && AnyLive(office.rows, tenant, ports.digest(to.value), ports.clock(office.looks));
            && (lifetime.Thrown? ==> issued == Thrown)
            && (lifetime.Refused? ==> issued == Refused(lifetime.error))
            && (lifetime.Value? && live ==> issued == Refused(Error("invitation_already_live")))
            && (lifetime.Value? && !live && secret.Thrown? ==> issued == Thrown)
            && (lifetime.Value? && !live && secret.Refused? ==> issued == Refused(secret.error))
            && (lifetime.Value? && !live && secret.Value? && lifetime.value <= 0 ==>
                  issued == Refused(Error("token_lifetime_not_positive")))
  {
  }

  /** A link works once, before it expires, and for nobody else's invitation. */
  lemma LinkWorksOnce(ports: Ports, office: Office, k: nat)
    requires k < |office.rows|
    ensures var now := ports.clock(office.looks);
            var used := Happened(ports, office, Use(k));
            && used.looks == office.looks + 1 && |used.rows| == |office.rows|
            && (forall j :: 0 <= j < |office.rows| && j != k ==> used.rows[j] == office.rows[j])
            && (used.rows[k] != office.rows[k] <==> office.rows[k].usedAt.None? && now < office.rows[k].expiresAt)
            && (used.rows[k] != office.rows[k] ==> used.rows[k] == office.rows[k].(usedAt := Some(now)))
            && (used.rows[k].usedAt.Some? ==> Happened(ports, used, Use(k)).rows == used.rows)
  {
  }
}
