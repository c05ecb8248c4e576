/** `purchase_analytic_auto_dist/models/purchase_order_line.py`: a helper field on
    a purchase order line that names one analytic account, kept in step with the
    line's analytic distribution (a JSON map from account id, written as text, to
    a percentage). */
module PurchaseAnalytic {
  import opened Wrappers
  import opened Text

  /** `analytic_distribution`: `False`, or a map from account id text to percentage. */
  datatype Distribution = Unset | Shares(shares: map<string, real>)

  /** The distribution `_onchange_account_analytic_id` writes for helper account
      `account` (0 when the helper is empty). */
  function DistributionFor(account: int): Distribution
  {
    if account != 0 then Shares(map[IntToString(account) := 100.0]) else Unset
  }

  /** A map with one entry has one key. */
  lemma SoleKey(m: map<string, real>, k: string, k': string)
    requires |m| == 1 && k in m && k' in m
    ensures k == k'
  {
    if k != k' {
      assert {k, k'} <= m.Keys;
      assert |{k, k'}| == 2;
      SubsetSize({k, k'}, m.Keys);
    }
  }

  lemma SubsetSize(a: set<string>, b: set<string>)
    requires a <= b
    ensures |a| <= |b|
  {
    assert b == a + (b - a);
  }

  /** The helper account `_onchange_analytic_distribution` leaves, starting from
      `account`: a sole entry at 100% whose key `int()` reads names that account; a
      sole entry at 100% whose key it cannot read leaves the helper as it was; a
      sole entry at another percentage, several entries or none clear it. */
  ghost function SyncedAccount(d: Distribution, account: int): int
  {
    if d.Shares? && |d.shares| == 1 then
      var key :| key in d.shares;
      if d.shares[key] == 100.0 then
        match ParseInt(key)
        case Some(id) => id
        case None => account
      else 0
    else 0
  }

  /** The helper cases one by one. */
  lemma SyncedAccountCases(d: Distribution, account: int)
    ensures d.Unset? || d.shares == map[] ==> SyncedAccount(d, account) == 0
    ensures d.Shares? && |d.shares| > 1 ==> SyncedAccount(d, account) == 0
    ensures forall key, p :: d == Shares(map[key := p]) && p != 100.0 ==> SyncedAccount(d, account) == 0
    ensures forall key :: d == Shares(map[key := 100.0]) && ParseInt(key).None? ==> SyncedAccount(d, account) == account
    ensures forall key :: d == Shares(map[key := 100.0]) && ParseInt(key).Some? ==>
      SyncedAccount(d, account) == ParseInt(key).value
  {
    forall key, p | d == Shares(map[key := p])
      ensures SyncedAccount(d, account) == if p == 100.0 then (if ParseInt(key).Some? then ParseInt(key).value else account) else 0
    {
      assert |d.shares| == 1 && key in d.shares;
      var k :| k in d.shares && SyncedAccount(d, account) == (if d.shares[k] == 100.0 then (match ParseInt(k) case Some(id) => id case None => account) else 0);
      SoleKey(d.shares, k, key);
    }
  }

  /** Choosing an account and then letting the distribution onchange run keeps
      that account, and clearing it keeps it clear. */
  lemma AccountRoundTrip(account: int, previous: int)
    ensures SyncedAccount(DistributionFor(account), previous) == account
  {
    if account != 0 {
      ParseIntToString(account);
      SyncedAccountCases(DistributionFor(account), previous);
    }
  }

  /** A distribution of 100% on one account, written as `str()` writes its id, is
      what choosing that account produces. */
  lemma DistributionRoundTrip(id: int, previous: int)
    requires id != 0
    ensures DistributionFor(SyncedAccount(Shares(map[IntToString(id) := 100.0]), previous))
      == Shares(map[IntToString(id) := 100.0])
  {
    AccountRoundTrip(id, previous);
  }

  /** A `purchase.order.line`, as far as the two onchanges go. `account` is the
      helper's account id, 0 when empty. */
  class PurchaseOrderLine {
    var account: int
    var distribution: Distribution

    constructor(account: int, distribution: Distribution)
      ensures this.account == account && this.distribution == distribution
    {
      this.account := account;
      this.distribution := distribution;
    }

    /** `_onchange_account_analytic_id`. */
    method OnchangeAccountAnalyticId()
      modifies this
      ensures distribution == DistributionFor(account) && account == old(account)
    {
      if account != 0 {
        distribution := Shares(map[IntToString(account) := 100.0]);
      } else {
        distribution := Unset;
      }
    }

    /** `_onchange_analytic_distribution`. */
    method OnchangeAnalyticDistribution()
      modifies this
      ensures account == SyncedAccount(old(distribution), old(account)) && distribution == old(distribution)
    {
      if distribution.Shares? && |distribution.shares| == 1 {
        var key :| key in distribution.shares;
        var percentage := distribution.shares[key];
        ghost var k :| k in distribution.shares && SyncedAccount(distribution, account)
          == (if distribution.shares[k] == 100.0 then (match ParseInt(k) case Some(id) => id case None => account) else 0);
        SoleKey(distribution.shares, k, key);
        if percentage == 100.0 {
          var parsed := ParseInt(key);
          if parsed.Some? {
            if account == 0 || account != parsed.value {
              account := parsed.value;
            }
          }
        } else {
          account := 0;
        }
      } else {
        if account != 0 {
          account := 0;
        }
      }
    }
  }
}
