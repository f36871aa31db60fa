/** How an inbound address finds its users: an exact address, then an alias that may
    fan out, then the domain's catch-all. */
module Routing {
  import opened Collections
  import opened Strings

  type UserId = nat

  datatype Domain = Domain(id: nat, name: string, catchAll: Option<UserId>)

  datatype AliasRow = AliasRow(id: nat, domainId: nat, localPart: string)

  datatype TargetRow = TargetRow(aliasId: nat, userId: UserId)

  /** The routing tables. `users` maps an address to its user; the rows of `aliases`
      and `targets` are listed in the order in which the database returns them. */
  datatype Tables = Tables(
    domains: map<string, Domain>,
    users: map<string, UserId>,
    aliases: seq<AliasRow>,
    targets: seq<TargetRow>)

  /** The keys the schema enforces: alias IDs and (domain, local part) pairs are
      unique, and so are (alias, user) pairs. */
  ghost predicate Keyed(t: Tables) {
    && (forall i, j :: 0 <= i < j < |t.aliases| ==>
          t.aliases[i].id != t.aliases[j].id
          && !(t.aliases[i].domainId == t.aliases[j].domainId && t.aliases[i].localPart == t.aliases[j].localPart))
    && Distinct(t.targets)
  }

  datatype Resolution = Routed(targets: seq<UserId>, domain: Domain) | Unroutable(reason: string)

  function TargetsOf(targets: seq<TargetRow>, aliasId: nat): seq<UserId> {
    if targets == [] then []
    else (if targets[0].aliasId == aliasId then [targets[0].userId] else []) + TargetsOf(targets[1..], aliasId)
  }

  function AliasTargets(aliases: seq<AliasRow>, targets: seq<TargetRow>, domainId: nat, localPart: string): seq<UserId> {
    if aliases == [] then []
    else (if aliases[0].domainId == domainId && aliases[0].localPart == localPart then TargetsOf(targets, aliases[0].id) else [])
           + AliasTargets(aliases[1..], targets, domainId, localPart)
  }

  function ResolveRecipients(t: Tables, address: string): Resolution {
    Resolve(t, ToLower(TrimSpace(address)))
  }

  function Resolve(t: Tables, recipient: string): Resolution {
    var at := LastIndex(recipient, '@');
    if at <= 0 || at == |recipient| - 1 then Unroutable("invalid recipient email")
    else if recipient[at + 1..] !in t.domains then Unroutable("domain lookup")
    else
      var domain := t.domains[recipient[at + 1..]];
      Routed(Lookup(t, recipient, recipient[..at], domain), domain)
  }

  function Lookup(t: Tables, recipient: string, localPart: string, domain: Domain): seq<UserId> {
    if recipient in t.users then [t.users[recipient]]
    else
      var targets := AliasTargets(t.aliases, t.targets, domain.id, localPart);
      if targets != [] then targets
      else if domain.catchAll.Some? then [domain.catchAll.value]
      else []
  }

  lemma {:induction false} TargetsOfKeyed(targets: seq<TargetRow>, aliasId: nat)
    requires Distinct(targets)
    ensures Distinct(TargetsOf(targets, aliasId))
    ensures forall u :: u in TargetsOf(targets, aliasId) <==> TargetRow(aliasId, u) in targets
  {
    if targets != [] {
      var rest := TargetsOf(targets[1..], aliasId);
      TargetsOfKeyed(targets[1..], aliasId);
      assert targets == [targets[0]] + targets[1..];
      if targets[0].aliasId == aliasId {
        assert TargetRow(aliasId, targets[0].userId) == targets[0];
        assert TargetsOf(targets, aliasId) == [targets[0].userId] + rest;
      } else {
        assert TargetsOf(targets, aliasId) == rest;
      }
    }
  }

  /** A row routes the local part of the domain to the user. */
  ghost predicate Aliased(aliases: seq<AliasRow>, targets: seq<TargetRow>, domainId: nat, localPart: string, u: UserId) {
    exists a :: a in aliases && a.domainId == domainId && a.localPart == localPart && TargetRow(a.id, u) in targets
  }

  lemma {:induction false} NoAliasNoTargets(aliases: seq<AliasRow>, targets: seq<TargetRow>, domainId: nat, localPart: string)
    requires forall k :: 0 <= k < |aliases| ==> !(aliases[k].domainId == domainId && aliases[k].localPart == localPart)
    ensures AliasTargets(aliases, targets, domainId, localPart) == []
  {
    if aliases != [] {
      NoAliasNoTargets(aliases[1..], targets, domainId, localPart);
    }
  }

  lemma {:induction false} AliasTargetsKeyed(t: Tables, aliases: seq<AliasRow>, domainId: nat, localPart: string)
    requires Keyed(t) && Keyed(t.(aliases := aliases))
    ensures Distinct(AliasTargets(aliases, t.targets, domainId, localPart))
    ensures forall u :: u in AliasTargets(aliases, t.targets, domainId, localPart)
                   <==> Aliased(aliases, t.targets, domainId, localPart, u)
    decreases |aliases|
  {
    if aliases != [] {
      var a, rest := aliases[0], aliases[1..];
      assert aliases == [a] + rest;
      var all := AliasTargets(aliases, t.targets, domainId, localPart);
      if a.domainId == domainId && a.localPart == localPart {
        forall k | 0 <= k < |rest|
          ensures !(rest[k].domainId == domainId && rest[k].localPart == localPart)
        {
          assert rest[k] == aliases[k + 1];
        }
        NoAliasNoTargets(rest, t.targets, domainId, localPart);
        TargetsOfKeyed(t.targets, a.id);
        assert all == TargetsOf(t.targets, a.id);
        forall u
          ensures u in all <==> Aliased(aliases, t.targets, domainId, localPart, u)
        {
          if TargetRow(a.id, u) in t.targets {
            assert a in aliases;
          }
        }
      } else {
        AliasTargetsKeyed(t, rest, domainId, localPart);
        assert all == AliasTargets(rest, t.targets, domainId, localPart);
        forall u
          ensures Aliased(aliases, t.targets, domainId, localPart, u) <==> Aliased(rest, t.targets, domainId, localPart, u)
        {
        }
      }
    }
  }

  /** Whom the first of the three routes that leads anywhere leads to. */
  ghost predicate RoutesTo(t: Tables, recipient: string, localPart: string, domain: Domain, u: UserId) {
    if recipient in t.users then u == t.users[recipient]
    else if exists v :: Aliased(t.aliases, t.targets, domain.id, localPart, v) then
      Aliased(t.aliases, t.targets, domain.id, localPart, u)
    else domain.catchAll == Some(u)
  }

  lemma LookupMembers(t: Tables, recipient: string, localPart: string, domain: Domain)
    requires Keyed(t)
    ensures Distinct(Lookup(t, recipient, localPart, domain))
    ensures forall u :: u in Lookup(t, recipient, localPart, domain) <==> RoutesTo(t, recipient, localPart, domain, u)
  {
    AliasTargetsKeyed(t, t.aliases, domain.id, localPart);
    var targets := AliasTargets(t.aliases, t.targets, domain.id, localPart);
    assert targets != [] ==> targets[0] in targets;
  }

  /** Splitting an address at its last @ into a non-empty local part and a known domain. */
  ghost predicate SplitsAt(t: Tables, recipient: string, at: int) {
    0 < at < |recipient| - 1 && recipient[at] == '@' && '@' !in recipient[at + 1..] && recipient[at + 1..] in t.domains
  }

  lemma ResolveSplits(t: Tables, recipient: string)
    ensures
      var at := LastIndex(recipient, '@');
      match Resolve(t, recipient)
      case Routed(targets, domain) =>
        SplitsAt(t, recipient, at) && domain == t.domains[recipient[at + 1..]]
        && targets == Lookup(t, recipient, recipient[..at], domain)
      case Unroutable(_) => forall k :: !SplitsAt(t, recipient, k)
  {
    var at := LastIndex(recipient, '@');
    forall k | SplitsAt(t, recipient, k)
      ensures k == at
    {
      assert forall i :: k < i < |recipient| ==> recipient[i] == recipient[k + 1..][i - k - 1];
    }
  }

  /** The resolved targets are distinct users, and a user is among them exactly when
      the address routes there: by exact match, else by alias, else by catch-all. */
  lemma ResolvedTargets(t: Tables, address: string) returns (at: int)
    requires Keyed(t) && ResolveRecipients(t, address).Routed?
    ensures
      var r := ResolveRecipients(t, address);
      var recipient := ToLower(TrimSpace(address));
      && SplitsAt(t, recipient, at) && r.domain == t.domains[recipient[at + 1..]]
      && Distinct(r.targets)
      && forall u :: u in r.targets <==> RoutesTo(t, recipient, recipient[..at], r.domain, u)
  {
    var r := ResolveRecipients(t, address);
    var recipient := ToLower(TrimSpace(address));
    at := LastIndex(recipient, '@');
    ResolveSplits(t, recipient);
    LookupMembers(t, recipient, recipient[..at], r.domain);
  }

  /** An address is refused exactly when it lacks a local part or a domain around its
      last @, or its domain is unknown; case and surrounding space never matter. */
  lemma UnroutableExactly(t: Tables, address: string)
    ensures ResolveRecipients(t, address).Unroutable? <==>
      forall at :: !SplitsAt(t, ToLower(TrimSpace(address)), at)
    ensures ResolveRecipients(t, ToLower(TrimSpace(address))) == ResolveRecipients(t, address)
  {
    ResolveSplits(t, ToLower(TrimSpace(address)));
    NormalForm(address);
  }

  /** An address written with other cases of its letters, and with other blanks, tabs and
      line ends around it, is resolved alike. */
  lemma CaseAndSpaceBlind(t: Tables, left: string, a: string, right: string, left': string, b: string, right': string)
    requires Padding(left) && Padding(right) && VisibleEnds(a)
    requires Padding(left') && Padding(right') && VisibleEnds(b)
    requires SameButCase(a, b)
    ensures ResolveRecipients(t, left + a + right) == ResolveRecipients(t, left' + b + right')
  {
    NormalExactly(left, a, right, left', b, right');
  }

  lemma NormalForm(address: string)
    ensures ToLower(TrimSpace(ToLower(TrimSpace(address)))) == ToLower(TrimSpace(address))
  {
    ToLowerKeepsTrimmed(TrimSpace(address));
    TrimTrimmed(ToLower(TrimSpace(address)), IsSpace);
    ToLowerIdempotent(TrimSpace(address));
  }
}
