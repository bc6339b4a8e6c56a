/** Right keys over runs, and storing the registry after any run (SipRegistry.cpp, SipDialog.cpp). */
module Persistence {
  import opened Text
  import opened Locations
  import opened AddressText
  import opened AccountMap
  import opened Messages
  import opened Proxy
  import opened Registrar
  import opened RegistrarRuns
  import opened Json

  predicate InDomain(accounts: Accounts, domain: string) {
    forall k :: k in accounts ==> accounts[k].domain == domain
  }

  /** What an event brings in belongs to the domain. */
  predicate BringsInto(e: RegistrarRuns.Event, domain: string) {
    match e
    case Provisioned(a) => a.domain == domain
    case Restored(items) => forall i :: 0 <= i < |items| ==> AddressOf(items[i]).domain == domain
    case _ => true
  }

  /** The registry keeps one domain, and accounts are provisioned and loaded in it. */
  predicate OneDomain(events: seq<Timed>, domain: string) {
    forall i :: 0 <= i < |events| ==> events[i].config.domain == domain && BringsInto(events[i].event, domain)
  }

  lemma {:induction false} RestoreKeepsDomain(accounts: Accounts, items: seq<Json>, domain: string)
    requires Keyed(accounts) && InDomain(accounts, domain)
    requires forall i :: 0 <= i < |items| ==> AddressOf(items[i]).domain == domain
    ensures Keyed(PutAll(accounts, items)) && InDomain(PutAll(accounts, items), domain)
    decreases |items|
  {
    hide AddressOf;
    if items != [] {
      RestoreKeepsDomain(accounts, items[..|items| - 1], domain);
    }
  }

  lemma MessageKeepsDomain(env: Env, config: Config, accounts: Accounts, m: SipMessage, tag: nat,
                           svc: Endpoint, nonce: string, now: Time)
    requires Keyed(accounts) && InDomain(accounts, config.domain)
    ensures var after := MessageStep(env, config, accounts, m, tag, svc, nonce, now).accounts;
            Keyed(after) && InDomain(after, config.domain)
  {
    hide MessageStep, UpdateGranted, Rebound, Unbound, Clean, KeyOf, ParseInt;
    KeysStayRight(env, config, accounts, m, tag, svc, nonce, now);
    StepEffect(env, config, accounts, m, tag, svc, nonce, now);
    var after := MessageStep(env, config, accounts, m, tag, svc, nonce, now).accounts;
    var target := if UpdateGranted(env, config, accounts, m, now) then UpdatedAccounts(config, accounts, m, now)
      else accounts;
    assert forall k :: k in target ==> SameEntry(after[k], target[k], now);
    assert forall k :: k in target ==> after[k].domain == target[k].domain;
  }

  /** In one domain, every run of messages, provisioning, loading, clearing and sweeping keeps every key its
      entry's own. */
  lemma {:induction false} KeysOverRuns(start: Accounts, events: seq<Timed>, domain: string)
    requires Keyed(start) && InDomain(start, domain) && OneDomain(events, domain)
    ensures Keyed(Run(start, events)) && InDomain(Run(start, events), domain)
    decreases |events|
  {
    hide MessageStep, LiveAt, PutAll, AddressOf;
    if events != [] {
      var before, e := events[..|events| - 1], events[|events| - 1];
      KeysOverRuns(start, before, domain);
      var accounts := Run(start, before);
      if e.event.Received? {
        MessageKeepsDomain(e.env, e.config, accounts, e.event.m, e.event.tag, e.event.svc, e.event.nonce, e.now);
      } else if e.event.Restored? {
        RestoreKeepsDomain(accounts, e.event.items, domain);
      }
    }
  }

  /** So after any such run the stored form rebuilds the very same registry. */
  lemma RunsCanBeStored(start: Accounts, events: seq<Timed>, domain: string, ip: string, order: seq<string>)
    requires Keyed(start) && InDomain(start, domain) && OneDomain(events, domain)
    requires Lists(order, Run(start, events).Keys)
    ensures var s := Stored(domain, ip, Run(start, events));
            Loaded(map[], RegistryJson(s, order, true)) == s <==> (ip == "" ==> domain == "")
  {
    hide Run, Keyed, InDomain, OneDomain, Loaded, RegistryJson;
    KeysOverRuns(start, events, domain);
    StoreRoundTrip(Stored(domain, ip, Run(start, events)), order, true);
  }
}
