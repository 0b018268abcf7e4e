/** The wallet service client: each request's outcome becomes a wallet record built from
    the raw JSON with `||` fallbacks, or an error carrying a fixed message. */
module CircleApi {
  import opened Wrappers
  import Js
  import Seqs

  /** A `WalletBalance`; its fields hold whatever JSON value the fallbacks pick. */
  datatype WalletBalance = WalletBalance(walletId: Js.Value, balance: Js.Value, currency: Js.Value,
                                         availableBalance: Js.Value, frozenBalance: Js.Value)

  /** When a record was last updated: the time in the raw record, or the current time. */
  datatype Updated = FromRecord(value: Js.Value) | Now

  datatype EmployeeWallet = EmployeeWallet(employeeId: Js.Value, walletId: Js.Value,
                                           walletAddress: Js.Value, balance: WalletBalance,
                                           lastUpdated: Updated)

  /** How a `fetch` call ends: a thrown network error, or a response with its `ok` flag,
      its status text, and its body as JSON (`None` when it is not JSON). */
  datatype HttpReply = NetworkError | Reply(ok: bool, statusText: string, body: Option<Js.Value>)

  const BalanceError: string := "Failed to fetch wallet balance"
  const WalletsError: string := "Failed to fetch employee wallets"
  const CreateError: string := "Failed to create employee wallet"
  const TransactionsError: string := "Failed to fetch wallet transactions"

  /** `wallet.key` on a record known not to be `null` or `undefined`. */
  function Get(w: Js.Value, key: string): Js.Value {
    Js.OptionalMember(w, key)
  }

  /** `wallet.wallet_id || wallet.id`. */
  function WalletId(w: Js.Value): Js.Value {
    Js.Or(Get(w, "wallet_id"), Get(w, "id"))
  }

  /** The nested `wallet.balance?.<key>`. */
  function Nested(w: Js.Value, key: string): Js.Value {
    Js.OptionalMember(Get(w, "balance"), key)
  }

  /** `wallet.employee_id || employeeId`. */
  function EmployeeIdOf(w: Js.Value, employeeId: string): Js.Value {
    Js.Or(Get(w, "employee_id"), Js.Str(employeeId))
  }

  /** `wallet.wallet_address || wallet.address || ''`. */
  function Address(w: Js.Value): Js.Value {
    Js.FirstTruthy([Get(w, "wallet_address"), Get(w, "address"), Js.Str("")])
  }

  /** `wallet.balance?.currency || wallet.currency || 'USD'`. */
  function Currency(w: Js.Value): Js.Value {
    Js.FirstTruthy([Nested(w, "currency"), Get(w, "currency"), Js.Str("USD")])
  }

  /** `wallet.balance?.frozen_balance || wallet.frozen_balance || '0'`. */
  function Frozen(w: Js.Value): Js.Value {
    Js.FirstTruthy([Nested(w, "frozen_balance"), Get(w, "frozen_balance"), Js.Str("0")])
  }

  /** The list mapping's `balance`: nested, then top-level, then `0`. */
  function ListAmount(w: Js.Value): Js.Value {
    Js.FirstTruthy([Nested(w, "balance"), Get(w, "balance"), Js.Str("0")])
  }

  /** The list mapping's `availableBalance`, which falls back to the top-level balance. */
  function ListAvailable(w: Js.Value): Js.Value {
    Js.FirstTruthy([Nested(w, "available_balance"), Get(w, "available_balance"), Get(w, "balance"), Js.Str("0")])
  }

  /** The create mapping's `balance`: nested, then `0`. */
  function CreatedAmount(w: Js.Value): Js.Value {
    Js.Or(Nested(w, "balance"), Js.Str("0"))
  }

  /** The create mapping's `availableBalance`, without the top-level balance. */
  function CreatedAvailable(w: Js.Value): Js.Value {
    Js.FirstTruthy([Nested(w, "available_balance"), Get(w, "available_balance"), Js.Str("0")])
  }

  /** The record `getEmployeeWallets` builds from one element of the list; `None` when
      the element is `null` (reading its properties throws). */
  function ListWallet(w: Js.Value, employeeId: string): (r: Option<EmployeeWallet>)
    ensures r.None? <==> w.Null? || w.Undefined?
    ensures r.Some? ==> r.value.balance.walletId == r.value.walletId
  {
    if w.Null? || w.Undefined? then None
    else
      Some(EmployeeWallet(EmployeeIdOf(w, employeeId), WalletId(w), Address(w),
                          WalletBalance(WalletId(w), ListAmount(w), Currency(w), ListAvailable(w), Frozen(w)),
                          if Js.Truthy(Get(w, "last_updated")) then FromRecord(Get(w, "last_updated")) else Now))
  }

  /** The record `createEmployeeWallet` builds from the created wallet. */
  function CreatedWallet(w: Js.Value, employeeId: string): (r: Option<EmployeeWallet>)
    ensures r.None? <==> w.Null? || w.Undefined?
    ensures r.Some? ==> r.value.balance.walletId == r.value.walletId && r.value.lastUpdated == Now
  {
    if w.Null? || w.Undefined? then None
    else
      Some(EmployeeWallet(EmployeeIdOf(w, employeeId), WalletId(w), Address(w),
                          WalletBalance(WalletId(w), CreatedAmount(w), Currency(w), CreatedAvailable(w), Frozen(w)),
                          Now))
  }

  /** The identity fallbacks of a record: the employee id of the request when the record
      has none, and an empty address when neither address field is set. */
  lemma IdentityFallbacks(w: Js.Value, employeeId: string)
    requires !w.Null? && !w.Undefined?
    ensures var r := ListWallet(w, employeeId).value;
            r == CreatedWallet(w, employeeId).value.(balance := r.balance, lastUpdated := r.lastUpdated) &&
            (Js.Truthy(Get(w, "employee_id")) ==> r.employeeId == Get(w, "employee_id")) &&
            (!Js.Truthy(Get(w, "employee_id")) ==> r.employeeId == Js.Str(employeeId)) &&
            (Js.Truthy(Get(w, "wallet_id")) ==> r.walletId == Get(w, "wallet_id")) &&
            (!Js.Truthy(Get(w, "wallet_id")) ==> r.walletId == Get(w, "id")) &&
            (!Js.Truthy(Get(w, "wallet_address")) && !Js.Truthy(Get(w, "address")) ==> r.walletAddress == Js.Str(""))
  {
    if !Js.Truthy(Get(w, "wallet_address")) && !Js.Truthy(Get(w, "address")) {
      Js.FirstTruthyIsFirst([Get(w, "wallet_address"), Get(w, "address"), Js.Str("")], 2);
    }
  }

  /** The amount fallbacks: with no amount fields the defaults `0` and `USD` are used,
      and the amount and currency fields are never falsy. */
  lemma AmountDefaults(w: Js.Value, employeeId: string)
    requires !w.Null? && !w.Undefined?
    ensures var b := ListWallet(w, employeeId).value.balance;
            (!Js.Truthy(Get(w, "balance")) ==> b.balance == Js.Str("0")) &&
            (!Js.Truthy(Nested(w, "currency")) && !Js.Truthy(Get(w, "currency")) ==> b.currency == Js.Str("USD")) &&
            Js.Truthy(b.balance) && Js.Truthy(b.currency) && Js.Truthy(b.availableBalance) && Js.Truthy(b.frozenBalance)
  {
    var bal := Get(w, "balance");
    if !Js.Truthy(bal) {
      assert Nested(w, "balance") == Js.Undefined;
      Js.FirstTruthyIsFirst([Nested(w, "balance"), bal, Js.Str("0")], 2);
    }
    if !Js.Truthy(Nested(w, "currency")) && !Js.Truthy(Get(w, "currency")) {
      Js.FirstTruthyIsFirst([Nested(w, "currency"), Get(w, "currency"), Js.Str("USD")], 2);
    }
    assert Js.Truthy(Js.Str("0")) && Js.Truthy(Js.Str("USD"));
    var avail := [Nested(w, "available_balance"), Get(w, "available_balance"), Get(w, "balance"), Js.Str("0")];
    assert Js.Truthy(avail[3]);
    var frozen := [Nested(w, "frozen_balance"), Get(w, "frozen_balance"), Js.Str("0")];
    assert Js.Truthy(frozen[2]);
    var amount := [Nested(w, "balance"), Get(w, "balance"), Js.Str("0")];
    assert Js.Truthy(amount[2]);
    var currency := [Nested(w, "currency"), Get(w, "currency"), Js.Str("USD")];
    assert Js.Truthy(currency[2]);
  }

  /** The two mappings of `balance` differ: they agree exactly when the record has no
      truthy top-level `balance`, or has a truthy nested one, or the top-level one is
      the string `0`. */
  lemma BalanceMappingsDiffer(w: Js.Value, employeeId: string)
    requires !w.Null? && !w.Undefined?
    ensures (ListWallet(w, employeeId).value.balance.balance == CreatedWallet(w, employeeId).value.balance.balance)
              <==> (!Js.Truthy(Get(w, "balance")) || Js.Truthy(Nested(w, "balance")) || Get(w, "balance") == Js.Str("0"))
  {
    var nested, top := Nested(w, "balance"), Get(w, "balance");
    if !Js.Truthy(nested) {
      Js.FirstTruthyIsFirst([nested, top, Js.Str("0")], if Js.Truthy(top) then 1 else 2);
    } else {
      Js.FirstTruthyIsFirst([nested, top, Js.Str("0")], 0);
    }
  }

  /** A record with only a top-level balance shows the difference. */
  lemma BalanceMappingsExample()
    ensures var w := Js.Obj(map["id" := Js.Str("w1"), "balance" := Js.Str("12")]);
            ListWallet(w, "e1").value.balance.balance == Js.Str("12") &&
            CreatedWallet(w, "e1").value.balance.balance == Js.Str("0")
  {
    var w := Js.Obj(map["id" := Js.Str("w1"), "balance" := Js.Str("12")]);
    assert Get(w, "balance") == Js.Str("12");
    assert Nested(w, "balance") == Js.Undefined;
  }

  /** `data.map(...)` over the elements of a list; `None` when an element is `null`. */
  function MapWallets(items: seq<Js.Value>, employeeId: string): (r: Option<seq<EmployeeWallet>>)
    ensures r.Some? <==> forall i :: 0 <= i < |items| ==> !items[i].Null? && !items[i].Undefined?
    ensures r.Some? ==>
              |r.value| == |items| &&
              forall i :: 0 <= i < |items| ==> Some(r.value[i]) == ListWallet(items[i], employeeId)
  {
    Seqs.MapAll(items, (w: Js.Value) => ListWallet(w, employeeId))
  }

  /** The JSON body of a successful response, or None for every way the call throws
      before reaching it. */
  function OkBody(reply: HttpReply): (r: Option<Js.Value>)
    ensures r.Some? <==> reply.Reply? && reply.ok && reply.body.Some?
  {
    if reply.Reply? && reply.ok then reply.body else None
  }

  /** `getEmployeeWalletBalance`: the body is returned as it is. */
  function GetEmployeeWalletBalance(reply: HttpReply): (r: Result<Js.Value>)
    ensures r.Ok? <==> OkBody(reply).Some?
    ensures r.Ok? ==> r.value == OkBody(reply).value
    ensures r.Err? ==> r.message == BalanceError
  {
    match OkBody(reply)
    case Some(data) => Ok(data)
    case None => Err(BalanceError)
  }

  /** What the caller sees of the balance call: a successful body comes back unchanged,
      whatever it is, and every failure is the same error, so the status text of a
      rejected request and the body it carried are not reported. */
  lemma BalanceErrorHidesStatus(statusText: string, otherText: string, body: Option<Js.Value>, v: Js.Value)
    ensures GetEmployeeWalletBalance(Reply(true, statusText, Some(v))) == Ok(v)
    ensures GetEmployeeWalletBalance(Reply(false, statusText, body)) == Err(BalanceError)
    ensures GetEmployeeWalletBalance(Reply(false, statusText, body)) ==
            GetEmployeeWalletBalance(Reply(false, otherText, None))
    ensures GetEmployeeWalletBalance(NetworkError) == GetEmployeeWalletBalance(Reply(false, statusText, body))
  {
  }

  /** `getEmployeeWallets`: one record per element of the returned list, in order. A
      body that is not a list, or an element that is `null`, throws too. */
  function GetEmployeeWallets(reply: HttpReply, employeeId: string): (r: Result<seq<EmployeeWallet>>)
    ensures r.Err? ==> r.message == WalletsError
    ensures r.Ok? <==> OkBody(reply).Some? && OkBody(reply).value.Arr? &&
                       forall i :: 0 <= i < |OkBody(reply).value.items| ==>
                         !OkBody(reply).value.items[i].Null? && !OkBody(reply).value.items[i].Undefined?
    ensures r.Ok? ==>
              var items := OkBody(reply).value.items;
              |r.value| == |items| &&
              forall i :: 0 <= i < |items| ==> Some(r.value[i]) == ListWallet(items[i], employeeId)
  {
    match OkBody(reply)
    case Some(Arr(items)) =>
      (match MapWallets(items, employeeId)
       case Some(ws) => Ok(ws)
       case None => Err(WalletsError))
    case _ => Err(WalletsError)
  }

  /** The `name` sent when creating a wallet: the given name, else `Employee <id> Wallet`. */
  function WalletName(employeeId: string, walletName: Option<string>): (name: string)
    ensures walletName.Some? && walletName.value != "" ==> name == walletName.value
    ensures walletName.None? || walletName.value == "" ==> name == "Employee " + employeeId + " Wallet"
  {
    if walletName.Some? && walletName.value != "" then walletName.value
    else "Employee " + employeeId + " Wallet"
  }

  /** The name sent is never empty, and the default one is `Employee `, the employee id
      and ` Wallet`, so the defaults of two different employees differ. */
  lemma WalletNameShape(employeeId: string, otherId: string, walletName: Option<string>)
    ensures WalletName(employeeId, walletName) != ""
    ensures var name := WalletName(employeeId, None);
            |name| == |employeeId| + 16 && name[..9] == "Employee " &&
            name[9..|name| - 7] == employeeId && name[|name| - 7..] == " Wallet"
    ensures employeeId != otherId ==> WalletName(employeeId, None) != WalletName(otherId, None)
  {
    var name := WalletName(employeeId, None);
    assert name[9..|name| - 7] == employeeId;
    if employeeId != otherId {
      var other := WalletName(otherId, None);
      if |name| == |other| {
        assert other[9..|other| - 7] == otherId;
      }
    }
  }

  /** `createEmployeeWallet`: the record built from the created wallet. It never yields
      `null`: every failure is an error. */
  function CreateEmployeeWallet(reply: HttpReply, employeeId: string): (r: Result<EmployeeWallet>)
    ensures r.Err? ==> r.message == CreateError
    ensures r.Ok? <==> OkBody(reply).Some? && !OkBody(reply).value.Null? && !OkBody(reply).value.Undefined?
    ensures r.Ok? ==> Some(r.value) == CreatedWallet(OkBody(reply).value, employeeId)
  {
    match OkBody(reply)
    case Some(w) =>
      (match CreatedWallet(w, employeeId)
       case Some(wallet) => Ok(wallet)
       case None => Err(CreateError))
    case None => Err(CreateError)
  }

  /** `getWalletTransactions`: `data.transactions || data || []`; reading the field of a
      `null` body throws. */
  function GetWalletTransactions(reply: HttpReply): (r: Result<Js.Value>)
    ensures r.Err? ==> r.message == TransactionsError
    ensures r.Ok? <==> OkBody(reply).Some? && !OkBody(reply).value.Null? && !OkBody(reply).value.Undefined?
    ensures r.Ok? ==> Js.Truthy(r.value)
    ensures r.Ok? ==> var data := OkBody(reply).value;
              r.value == (if Js.Truthy(Get(data, "transactions")) then Get(data, "transactions")
                          else if Js.Truthy(data) then data else Js.Arr([]))
  {
    match OkBody(reply)
    case Some(data) =>
      (match Js.Member(data, "transactions")
       case Some(t) => Ok(Js.Or(t, Js.Or(data, Js.Arr([]))))
       case None => Err(TransactionsError))
    case None => Err(TransactionsError)
  }

  /** The base URL of the service: the constructor argument, else `RAILS_API_URL`, else
      `NEXT_PUBLIC_RAILS_API_URL`, else the local default; an empty string counts as
      unset. */
  function ApiUrl(argument: string, railsApiUrl: string, publicRailsApiUrl: string): (url: string)
    ensures url != ""
    ensures argument != "" ==> url == argument
    ensures argument == "" && railsApiUrl != "" ==> url == railsApiUrl
    ensures argument == "" && railsApiUrl == "" && publicRailsApiUrl != "" ==> url == publicRailsApiUrl
    ensures argument == "" && railsApiUrl == "" && publicRailsApiUrl == "" ==> url == "http://localhost:3000/api"
  {
    if argument != "" then argument
    else if railsApiUrl != "" then railsApiUrl
    else if publicRailsApiUrl != "" then publicRailsApiUrl
    else "http://localhost:3000/api"
  }
}
