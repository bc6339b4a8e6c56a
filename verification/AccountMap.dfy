/** The contents of the registry as a value: addresses by key (SipRegistry.h). */
module AccountMap {
  import opened Text
  import opened Locations
  import opened AddressText

  type Accounts = map<string, Address>

  type Time = t: Int64 | 0 < t witness 1

  function WithLocations(accounts: Accounts, key: string, ls: seq<SipLocation>): Accounts
    requires key in accounts
  {
    accounts[key := accounts[key].(locations := ls)]
  }

  /** The registry after getLocation on one entry, if there is one. */
  function LocatedAt(accounts: Accounts, key: string, now: Time): (r: Accounts)
    ensures r.Keys == accounts.Keys && (key in r ==> r[key].locations != [])
  {
    if key in accounts then WithLocations(accounts, key, Located(accounts[key].locations, now)) else accounts
  }

  function PurgedAt(accounts: Accounts, key: string, now: Time): Accounts {
    if key in accounts then WithLocations(accounts, key, Clean(accounts[key].locations, now)) else accounts
  }

  predicate LiveAt(accounts: Accounts, key: string, now: int) {
    key in accounts && Clean(accounts[key].locations, now) != []
  }

  /** Every key is the key of the entry stored under it. */
  predicate Keyed(accounts: Accounts) {
    forall k :: k in accounts ==> accounts[k].Key() == k
  }

  lemma OwnKey(accounts: Accounts, key: string)
    requires Keyed(accounts) && key in accounts
    ensures accounts[key].Key() == key
  {
  }

  /** The entries SipRegistry::clean keeps: those with a location unexpired at `now`. */
  function SweptAccounts(accounts: Accounts, now: int): Accounts {
    map k | k in accounts && LiveAt(accounts, k, now) :: accounts[k]
  }
}
