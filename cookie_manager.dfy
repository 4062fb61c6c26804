/**
 * `CookieManager`: the account store. Accounts live in a map keyed by account
 * name; `order` keeps the map's insertion order, which is the order in which
 * Python iterates the dict and so the order the scheduler sees accounts in.
 * Saving to and loading from the accounts file are not modelled.
 */
module Cookies {
  import opened Wrappers

  /** The one cookie an account cannot work without. */
  const SessionCookie := "__Secure-next-auth.session-token"

  /** One cookie as the browser extension exports it; each key may be missing. */
  datatype ChromeCookie = ChromeCookie(domain: Option<string>, name: Option<string>, value: Option<string>)

  datatype AccountStatus = Active | Valid | Invalid

  datatype Account = Account(
    name: string,
    cookies: map<string, string>,
    status: AccountStatus,
    createdAt: int,
    lastUsed: Option<int>,
    lastValidated: Option<int>)

  /** What `get_all_accounts` reports per account: everything except the cookies. */
  datatype AccountInfo = AccountInfo(
    name: string,
    status: AccountStatus,
    createdAt: int,
    lastUsed: Option<int>,
    lastValidated: Option<int>)

  /** The exceptions the store raises: ValueError for the first three, KeyError for the last. */
  datatype AccountError =
    | AlreadyExists(account: string)
    | NotFound(account: string)
    | MissingEssential(missing: seq<string>)
    | MissingCookieKey(key: string)

  function JoinComma(parts: seq<string>): string {
    if |parts| == 0 then "" else if |parts| == 1 then parts[0] else parts[0] + ", " + JoinComma(parts[1..])
  }

  /** `str(e)` of the exception: the ValueError texts, and the quoted key of a KeyError. */
  function Message(e: AccountError): string {
    match e
    case AlreadyExists(a) => "Account '" + a + "' already exists"
    case NotFound(a) => "Account '" + a + "' not found"
    case MissingEssential(ms) => "Missing essential cookies: " + JoinComma(ms)
    case MissingCookieKey(k) => "'" + k + "'"
  }

  predicate PerplexityDomain(c: ChromeCookie) {
    c.domain == Some(".perplexity.ai") || c.domain == Some("www.perplexity.ai")
  }

  /** A kept cookie that lacks the key the conversion subscripts. */
  predicate Broken(c: ChromeCookie) {
    PerplexityDomain(c) && (c.name.None? || c.value.None?)
  }

  /** A kept cookie named `k`. */
  predicate Carries(c: ChromeCookie, k: string) {
    PerplexityDomain(c) && c.name == Some(k)
  }

  /**
   * `convert_chrome_cookies_to_perplexity` as a left fold: a cookie of either
   * perplexity domain sets its name to its value, later ones overwriting
   * earlier ones; `cookie['value']` is read before `cookie['name']`.
   */
  function Converted(cs: seq<ChromeCookie>): Result<map<string, string>, AccountError> {
    if cs == [] then Ok(map[])
    else
      match Converted(cs[..|cs| - 1])
      case Err(e) => Err(e)
      case Ok(m) =>
        var c := cs[|cs| - 1];
        if !PerplexityDomain(c) then Ok(m)
        else if c.value.None? then Err(MissingCookieKey("value"))
        else if c.name.None? then Err(MissingCookieKey("name"))
        else Ok(m[c.name.value := c.value.value])
  }

  /** Once a prefix raises, the whole conversion raises the same error. */
  lemma {:induction false} ConvertedErrPersists(cs: seq<ChromeCookie>, i: nat)
    requires i <= |cs| && Converted(cs[..i]).Err?
    ensures Converted(cs) == Converted(cs[..i])
  {
    if i < |cs| {
      assert cs[..|cs| - 1][..i] == cs[..i];
      ConvertedErrPersists(cs[..|cs| - 1], i);
    } else {
      assert cs[..i] == cs;
    }
  }

  /** The conversion raises exactly when some kept cookie lacks its name or value. */
  lemma {:induction false} ConvertedErrIff(cs: seq<ChromeCookie>)
    ensures Converted(cs).Err? <==> exists i :: 0 <= i < |cs| && Broken(cs[i])
  {
    if cs != [] {
      var init := cs[..|cs| - 1];
      ConvertedErrIff(init);
      if exists i :: 0 <= i < |init| && Broken(init[i]) {
        var i :| 0 <= i < |init| && Broken(init[i]);
        assert Broken(cs[i]);
      }
      if exists i :: 0 <= i < |cs| && Broken(cs[i]) {
        var i :| 0 <= i < |cs| && Broken(cs[i]);
        if i < |init| { assert Broken(init[i]); }
      }
    }
  }

  /**
   * A successful conversion holds exactly the names of the kept cookies, and
   * each name maps to the value of the LAST kept cookie with that name.
   */
  lemma {:induction false} ConvertedLastWins(cs: seq<ChromeCookie>, k: string)
    requires Converted(cs).Ok?
    ensures k in Converted(cs).value <==> exists i :: 0 <= i < |cs| && Carries(cs[i], k)
    ensures k in Converted(cs).value ==>
      exists i :: 0 <= i < |cs| && Carries(cs[i], k) && cs[i].value == Some(Converted(cs).value[k])
        && forall j :: i < j < |cs| ==> !Carries(cs[j], k)
  {
    if cs != [] {
      var init := cs[..|cs| - 1];
      var c := cs[|cs| - 1];
      assert Converted(init).Ok?;
      ConvertedLastWins(init, k);
      var m := Converted(cs).value;
      if Carries(c, k) {
        assert m[k] == c.value.value;
      } else {
        assert k in m <==> k in Converted(init).value;
        if k in m {
          var i :| 0 <= i < |init| && Carries(init[i], k) && init[i].value == Some(Converted(init).value[k])
            && forall j :: i < j < |init| ==> !Carries(init[j], k);
          assert Carries(cs[i], k);
          assert forall j :: i < j < |cs| ==> !Carries(cs[j], k) by {
            forall j | i < j < |cs| ensures !Carries(cs[j], k) {
              if j < |init| { assert cs[j] == init[j]; }
            }
          }
        }
        if exists i :: 0 <= i < |cs| && Carries(cs[i], k) {
          var i :| 0 <= i < |cs| && Carries(cs[i], k);
          assert i < |init| && Carries(init[i], k);
        }
      }
    }
  }

  /** `display_name or account_name`: an empty display name counts as absent. */
  function DisplayName(accountName: string, displayName: Option<string>): string {
    if displayName.Some? && displayName.value != "" then displayName.value else accountName
  }

  function InfoOf(a: Account): (i: AccountInfo)
    ensures i.name == a.name && i.status == a.status && i.createdAt == a.createdAt
    ensures i.lastUsed == a.lastUsed && i.lastValidated == a.lastValidated
  {
    AccountInfo(a.name, a.status, a.createdAt, a.lastUsed, a.lastValidated)
  }

  predicate Distinct(s: seq<string>) {
    forall i, j :: 0 <= i < j < |s| ==> s[i] != s[j]
  }

  /** The insertion order after `del` of one key. */
  function Without(s: seq<string>, x: string): (r: seq<string>)
    ensures forall y :: y in r <==> y in s && y != x
    ensures Distinct(s) ==> Distinct(r)
  {
    if s == [] then []
    else
      var rest := Without(s[1..], x);
      assert Distinct(s) ==> Distinct(s[1..]) && s[0] !in s[1..] by {
        if Distinct(s) {
          forall k | 0 <= k < |s[1..]| ensures s[1..][k] != s[0] {
            assert s[1..][k] == s[k + 1];
          }
        }
      }
      (if s[0] == x then [] else [s[0]]) + rest
  }

  class CookieManager {
    var accounts: map<string, Account>
    var order: seq<string>

    ghost predicate Valid()
      reads this
    {
      Distinct(order) && forall a :: a in accounts <==> a in order
    }

    /** Every listed name has an account: the part of `Valid` a reader of the listing needs. */
    ghost predicate Listed()
      reads this
    {
      forall a :: a in order ==> a in accounts
    }

    /** A store with no accounts (loading the accounts file is not modelled). */
    constructor ()
      ensures Valid() && accounts == map[] && order == []
    {
      accounts := map[];
      order := [];
    }

    /** Conversion of exported cookies; it reads nothing of the store. */
    method ConvertChromeCookies(cs: seq<ChromeCookie>) returns (r: Result<map<string, string>, AccountError>)
      ensures r == Converted(cs)
      ensures r.Err? <==> exists i :: 0 <= i < |cs| && Broken(cs[i])
    {
      ConvertedErrIff(cs);
      var m: map<string, string> := map[];
      var i := 0;
      while i < |cs|
        invariant 0 <= i <= |cs|
        invariant Converted(cs[..i]) == Ok(m)
      {
        var c := cs[i];
        assert cs[..i + 1][..i] == cs[..i] && cs[..i + 1][i] == c;
        if PerplexityDomain(c) {
          if c.value.None? {
            ConvertedErrPersists(cs, i + 1);
            return Err(MissingCookieKey("value"));
          }
          if c.name.None? {
            ConvertedErrPersists(cs, i + 1);
            return Err(MissingCookieKey("name"));
          }
          m := m[c.name.value := c.value.value];
        }
        i := i + 1;
      }
      assert cs[..i] == cs;
      r := Ok(m);
    }

    /** `add_account` */
    method AddAccount(accountName: string, chromeCookies: seq<ChromeCookie>, displayName: Option<string>, now: int)
      returns (r: Result<Account, AccountError>)
      requires Valid()
      modifies this
      ensures Valid()
      ensures accountName in old(accounts) ==> r == Err(AlreadyExists(accountName))
      ensures accountName !in old(accounts) && Converted(chromeCookies).Err? ==> r == Err(Converted(chromeCookies).error)
      ensures accountName !in old(accounts) && Converted(chromeCookies).Ok? && SessionCookie !in Converted(chromeCookies).value
        ==> r == Err(MissingEssential([SessionCookie]))
      ensures r.Ok? <==> accountName !in old(accounts) && Converted(chromeCookies).Ok? && SessionCookie in Converted(chromeCookies).value
      ensures r.Ok? ==>
        && r.value == Account(DisplayName(accountName, displayName), Converted(chromeCookies).value, Active, now, None, None)
        && accounts == old(accounts)[accountName := r.value]
        && order == old(order) + [accountName]
      ensures r.Err? ==> accounts == old(accounts) && order == old(order)
    {
      if accountName in accounts {
        return Err(AlreadyExists(accountName));
      }
      var converted := ConvertChromeCookies(chromeCookies);
      if converted.Err? {
        return Err(converted.error);
      }
      var cookies := converted.value;
      if SessionCookie !in cookies {
        return Err(MissingEssential([SessionCookie]));
      }
      var account := Account(DisplayName(accountName, displayName), cookies, Active, now, None, None);
      accounts := accounts[accountName := account];
      order := order + [accountName];
      r := Ok(account);
    }

    /** `update_account`: new cookies, active again, validated now; name and creation time kept. */
    method UpdateAccount(accountName: string, chromeCookies: seq<ChromeCookie>, now: int)
      returns (r: Result<Account, AccountError>)
      requires Valid()
      modifies this
      ensures Valid() && order == old(order)
      ensures accountName !in old(accounts) ==> r == Err(NotFound(accountName))
      ensures accountName in old(accounts) && Converted(chromeCookies).Err? ==> r == Err(Converted(chromeCookies).error)
      ensures accountName in old(accounts) && Converted(chromeCookies).Ok? && SessionCookie !in Converted(chromeCookies).value
        ==> r == Err(MissingEssential([SessionCookie]))
      ensures r.Ok? <==> accountName in old(accounts) && Converted(chromeCookies).Ok? && SessionCookie in Converted(chromeCookies).value
      ensures r.Ok? ==>
        && r.value == old(accounts)[accountName].(cookies := Converted(chromeCookies).value, status := Active, lastValidated := Some(now))
        && r.value.name == old(accounts)[accountName].name
        && r.value.createdAt == old(accounts)[accountName].createdAt
        && accounts == old(accounts)[accountName := r.value]
      ensures r.Err? ==> accounts == old(accounts)
    {
      if accountName !in accounts {
        return Err(NotFound(accountName));
      }
      var converted := ConvertChromeCookies(chromeCookies);
      if converted.Err? {
        return Err(converted.error);
      }
      var cookies := converted.value;
      if SessionCookie !in cookies {
        return Err(MissingEssential([SessionCookie]));
      }
      var account := accounts[accountName].(cookies := cookies, status := Active, lastValidated := Some(now));
      accounts := accounts[accountName := account];
      r := Ok(account);
    }

    /** `get_account_cookies`: raises for an unknown name, else a copy of the stored cookies. */
    function GetAccountCookies(accountName: string): (r: Result<map<string, string>, AccountError>)
      reads this
      ensures r.Err? <==> accountName !in accounts
      ensures r.Err? ==> r.error == NotFound(accountName)
      ensures r.Ok? ==> r.value == accounts[accountName].cookies
    {
      if accountName !in accounts then Err(NotFound(accountName)) else Ok(accounts[accountName].cookies)
    }

    /** `get_all_accounts`: one summary per account, without cookies. */
    method GetAllAccounts() returns (r: map<string, AccountInfo>)
      requires Valid()
      ensures r.Keys == accounts.Keys
      ensures forall a :: a in r ==> r[a] == InfoOf(accounts[a])
    {
      r := map[];
      var i := 0;
      while i < |order|
        invariant 0 <= i <= |order|
        invariant forall a :: a in r <==> a in order[..i]
        invariant forall a :: a in r ==> a in accounts && r[a] == InfoOf(accounts[a])
      {
        var name := order[i];
        r := r[name := InfoOf(accounts[name])];
        i := i + 1;
      }
      assert order[..i] == order;
    }

    /** `delete_account`: true exactly when the name was present; only that entry goes. */
    method DeleteAccount(accountName: string) returns (deleted: bool)
      requires Valid()
      modifies this
      ensures Valid()
      ensures deleted == (accountName in old(accounts))
      ensures accounts == old(accounts) - {accountName}
      ensures order == Without(old(order), accountName)
    {
      deleted := accountName in accounts;
      if deleted {
        accounts := accounts - {accountName};
        order := Without(order, accountName);
      } else {
        assert order == Without(order, accountName) by { WithoutAbsent(order, accountName); }
      }
    }

    /** `mark_account_used`: stamps `last_used`; a no-op for an unknown name. */
    method MarkAccountUsed(accountName: string, now: int)
      requires Valid()
      modifies this`accounts
      ensures Valid() && order == old(order)
      ensures accountName in old(accounts) ==> accounts == old(accounts)[accountName := old(accounts)[accountName].(lastUsed := Some(now))]
      ensures accountName !in old(accounts) ==> accounts == old(accounts)
    {
      if accountName in accounts {
        accounts := accounts[accountName := accounts[accountName].(lastUsed := Some(now))];
      }
    }

    /** `mark_account_validated`: `valid` or `invalid` and a validation time; a no-op for an unknown name. */
    method MarkAccountValidated(accountName: string, isValid: bool, now: int)
      requires Valid()
      modifies this
      ensures Valid() && order == old(order)
      ensures accountName in old(accounts) ==>
        accounts == old(accounts)[accountName := old(accounts)[accountName].(status := if isValid then AccountStatus.Valid else AccountStatus.Invalid, lastValidated := Some(now))]
      ensures accountName !in old(accounts) ==> accounts == old(accounts)
    {
      if accountName in accounts {
        var status := if isValid then AccountStatus.Valid else AccountStatus.Invalid;
        accounts := accounts[accountName := accounts[accountName].(status := status, lastValidated := Some(now))];
      }
    }
  }

  /** `a` occurs somewhere before `b` in `s`. */
  predicate Before(s: seq<string>, a: string, b: string) {
    exists i, j :: 0 <= i < j < |s| && s[i] == a && s[j] == b
  }

  lemma BeforeCons(h: string, t: seq<string>, a: string, b: string)
    ensures Before([h] + t, a, b) <==> (h == a && b in t) || Before(t, a, b)
  {
    var s := [h] + t;
    if Before(s, a, b) {
      var i, j :| 0 <= i < j < |s| && s[i] == a && s[j] == b;
      if i > 0 {
        assert t[i - 1] == a && t[j - 1] == b;
      } else {
        assert t[j - 1] == b;
      }
    }
    if Before(t, a, b) {
      var i, j :| 0 <= i < j < |t| && t[i] == a && t[j] == b;
      assert s[i + 1] == a && s[j + 1] == b;
    }
    if h == a && b in t {
      var j :| 0 <= j < |t| && t[j] == b;
      assert s[0] == a && s[j + 1] == b;
    }
  }

  /**
   * `del` keeps the insertion order of the other names: two remaining names
   * come in the same order before and after the deletion.
   */
  lemma {:induction false} WithoutKeepsOrder(s: seq<string>, x: string, a: string, b: string)
    requires a != x && b != x
    ensures Before(Without(s, x), a, b) <==> Before(s, a, b)
  {
    if s != [] {
      WithoutKeepsOrder(s[1..], x, a, b);
      var rest := Without(s[1..], x);
      assert s == [s[0]] + s[1..];
      BeforeCons(s[0], s[1..], a, b);
      if s[0] != x {
        assert Without(s, x) == [s[0]] + rest;
        assert b in rest <==> b in s[1..];
        BeforeCons(s[0], rest, a, b);
      } else {
        assert Without(s, x) == rest;
      }
    }
  }

  lemma {:induction false} WithoutAbsent(s: seq<string>, x: string)
    requires x !in s
    ensures Without(s, x) == s
  {
    if s != [] {
      WithoutAbsent(s[1..], x);
      assert s == [s[0]] + s[1..];
    }
  }
}
