/** The employee wallet hook: the `wallets`, `loading` and `error` state of one
    employee's wallet view, and the three operations that update it. */
module EmployeeWalletHook {
  import opened Wrappers
  import Js
  import CircleApi

  type EmployeeWallet = CircleApi.EmployeeWallet

  const NotConfigured: string := "Circle API not configured"

  class WalletHook {
    const employeeId: string
    /** What `validateCircleConfig()` answers; the configuration does not change. */
    const configValid: bool
    var wallets: seq<EmployeeWallet>
    var loading: bool
    var error: Option<string>

    constructor(employeeId: string, configValid: bool)
      ensures this.employeeId == employeeId && this.configValid == configValid
      ensures wallets == [] && !loading && error.None?
    {
      this.employeeId := employeeId;
      this.configValid := configValid;
      wallets := [];
      loading := false;
      error := None;
    }

    /** `refreshWallets`, with `reply` the outcome of the list request. */
    method RefreshWallets(reply: CircleApi.HttpReply)
      modifies this
      ensures !configValid ==>
                error == Some(NotConfigured) && wallets == old(wallets) && loading == old(loading)
      ensures configValid ==> !loading
      ensures configValid ==>
                match CircleApi.GetEmployeeWallets(reply, employeeId)
                case Ok(ws) => wallets == ws && error.None?
                case Err(msg) => wallets == old(wallets) && error == Some(msg)
    {
      if !configValid {
        error := Some(NotConfigured);
        return;
      }
      loading := true;
      error := None;
      var result := CircleApi.GetEmployeeWallets(reply, employeeId);
      match result {
        case Ok(ws) => wallets := ws;
        case Err(msg) => error := Some(msg);
      }
      loading := false;
    }

    /** `getWalletBalance`: never touches `wallets` or `loading`. */
    method GetWalletBalance(reply: CircleApi.HttpReply) returns (balance: Option<Js.Value>)
      modifies this
      ensures wallets == old(wallets) && loading == old(loading)
      ensures !configValid ==> balance.None? && error == Some(NotConfigured)
      ensures configValid ==>
                match CircleApi.GetEmployeeWalletBalance(reply)
                case Ok(b) => balance == Some(b) && error == old(error)
                case Err(msg) => balance.None? && error == Some(msg)
    {
      if !configValid {
        error := Some(NotConfigured);
        return None;
      }
      var result := CircleApi.GetEmployeeWalletBalance(reply);
      match result {
        case Ok(b) => balance := Some(b);
        case Err(msg) =>
          error := Some(msg);
          balance := None;
      }
    }

    /** `createWallet`: a created wallet is appended after the existing ones and
        returned; a failure returns null and keeps the wallets. */
    method CreateWallet(forEmployee: string, walletName: Option<string>, reply: CircleApi.HttpReply)
      returns (created: Option<EmployeeWallet>)
      modifies this
      ensures !configValid ==>
                created.None? && error == Some(NotConfigured) && wallets == old(wallets) && loading == old(loading)
      ensures configValid ==> !loading
      ensures configValid ==>
                match CircleApi.CreateEmployeeWallet(reply, forEmployee)
                case Ok(w) => created == Some(w) && wallets == old(wallets) + [w] && error.None?
                case Err(msg) => created.None? && wallets == old(wallets) && error == Some(msg)
    {
      if !configValid {
        error := Some(NotConfigured);
        return None;
      }
      loading := true;
      error := None;
      var result := CircleApi.CreateEmployeeWallet(reply, forEmployee);
      match result {
        case Ok(w) =>
          wallets := wallets + [w];
          created := Some(w);
        case Err(msg) =>
          error := Some(msg);
          created := None;
      }
      loading := false;
    }

    /** The mount effect: the wallets are loaded only for a non-empty employee id. */
    method Mount(reply: CircleApi.HttpReply)
      modifies this
      ensures employeeId == "" ==> wallets == old(wallets) && loading == old(loading) && error == old(error)
      ensures employeeId != "" && configValid ==> !loading
      ensures employeeId != "" && configValid ==>
                match CircleApi.GetEmployeeWallets(reply, employeeId)
                case Ok(ws) => wallets == ws && error.None?
                case Err(msg) => wallets == old(wallets) && error == Some(msg)
      ensures employeeId != "" && !configValid ==> error == Some(NotConfigured) && wallets == old(wallets)
    {
      if employeeId != "" {
        RefreshWallets(reply);
      }
    }
  }
}
