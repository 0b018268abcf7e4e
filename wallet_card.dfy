/** The employee wallet card: which view it shows, how it abbreviates ids and addresses,
    and the create button's handler. */
module WalletCard {
  import opened Wrappers
  import opened Text
  import Js
  import CircleApi
  import EmployeeWalletHook

  datatype View = Skeleton | EmptyState | WalletList

  /** The loading skeleton while the first load runs, the empty state when there are no
      wallets, and the list otherwise. */
  function SelectView(loading: bool, walletCount: nat): (v: View)
    ensures v == Skeleton <==> loading && walletCount == 0
    ensures v == EmptyState <==> !loading && walletCount == 0
    ensures v == WalletList <==> walletCount > 0
  {
    if loading && walletCount == 0 then Skeleton
    else if walletCount == 0 then EmptyState
    else WalletList
  }

  /** The loading flag only matters while there are no wallets: once a wallet is added
      the list is shown, loading or not, and with none the card shows the skeleton or the
      empty state as the flag says. */
  lemma ViewAfterCreate(loading: bool, wallets: seq<Js.Value>, w: Js.Value)
    ensures SelectView(loading, |wallets + [w]|) == WalletList
    ensures SelectView(true, |wallets + [w]|) == SelectView(false, |wallets + [w]|)
    ensures SelectView(loading, 0) != WalletList
    ensures SelectView(loading, 0) == (if loading then Skeleton else EmptyState)
  {
  }

  /** `walletId.slice(-8)`: the last eight characters, or the whole id when shorter. */
  function WalletLabel(walletId: string): (shown: string)
    ensures |walletId| <= 8 ==> shown == walletId
    ensures |walletId| > 8 ==> |shown| == 8
    ensures shown == walletId[|walletId| - |shown|..]
  {
    SliceFrom(walletId, -8)
  }

  /** The address line: `N/A` for an empty address, else the first and last eight
      characters around `...`. */
  function AddressText(address: string): (text: string)
    ensures address == "" ==> text == "N/A"
    ensures address != "" ==> text == Slice(address, 0, 8) + "..." + SliceFrom(address, -8)
  {
    if address == "" then "N/A" else Slice(address, 0, 8) + "..." + SliceFrom(address, -8)
  }

  /** A long address shows its first and last eight characters, and an address of at
      most eight characters is shown twice. */
  lemma AddressAbbreviation(address: string)
    requires address != ""
    ensures |address| >= 8 ==>
              |AddressText(address)| == 19 &&
              AddressText(address)[..8] == address[..8] &&
              AddressText(address)[8..11] == "..." &&
              AddressText(address)[11..] == address[|address| - 8..]
    ensures |address| <= 8 ==> AddressText(address) == address + "..." + address
  {
  }

  const Mask: string := "••••••"

  /** The balance line: the formatted amount, or the mask while balances are hidden. */
  function BalanceText(showBalances: bool, formatted: string): (text: string)
    ensures !showBalances ==> text == Mask
    ensures showBalances ==> text == formatted
  {
    if showBalances then formatted else Mask
  }

  /** While balances are hidden two amounts read the same, and while they are shown two
      amounts read the same only when they are the same; the mask is never empty. */
  lemma MaskHidesAmount(a: string, b: string)
    ensures BalanceText(false, a) == BalanceText(false, b)
    ensures BalanceText(true, a) == BalanceText(true, b) <==> a == b
    ensures BalanceText(false, a) != ""
  {
  }

  /** The name the card asks for: the employee's name with `'s Wallet`. */
  function NewWalletName(employeeName: string): string {
    employeeName + "'s Wallet"
  }

  /** The card's state on top of the hook. `created` lists the ids handed to
      `onWalletCreated`, in order. */
  class CardState {
    const hook: EmployeeWalletHook.WalletHook
    const hasCallback: bool
    var isCreatingWallet: bool
    var showBalances: bool
    var created: seq<Js.Value>

    constructor(hook: EmployeeWalletHook.WalletHook, hasCallback: bool)
      ensures this.hook == hook && this.hasCallback == hasCallback
      ensures !isCreatingWallet && showBalances && created == []
    {
      this.hook := hook;
      this.hasCallback := hasCallback;
      isCreatingWallet := false;
      showBalances := true;
      created := [];
    }

    /** The eye button. */
    method ToggleBalances()
      modifies this
      ensures showBalances == !old(showBalances)
      ensures isCreatingWallet == old(isCreatingWallet) && created == old(created)
    {
      showBalances := !showBalances;
    }

    /** `handleCreateWallet`: asks the hook for a wallet named after the employee, hands
        the new wallet's id to the callback when there is one, and always ends with
        `isCreatingWallet` false. */
    method HandleCreateWallet(employeeName: string, reply: CircleApi.HttpReply)
      modifies this, hook
      ensures !isCreatingWallet && showBalances == old(showBalances)
      ensures hook.configValid ==>
                match CircleApi.CreateEmployeeWallet(reply, hook.employeeId)
                case Ok(w) =>
                  hook.wallets == old(hook.wallets) + [w] &&
                  created == old(created) + (if hasCallback then [w.walletId] else [])
                case Err(msg) => hook.wallets == old(hook.wallets) && hook.error == Some(msg) && created == old(created)
      ensures !hook.configValid ==> hook.wallets == old(hook.wallets) && created == old(created)
      ensures hook.configValid ==>
                SelectView(hook.loading, |hook.wallets|) == (if |hook.wallets| == 0 then EmptyState else WalletList)
      ensures hook.configValid && CircleApi.CreateEmployeeWallet(reply, hook.employeeId).Ok? ==>
                SelectView(hook.loading, |hook.wallets|) == WalletList
    {
      isCreatingWallet := true;
      var newWallet := hook.CreateWallet(hook.employeeId, Some(NewWalletName(employeeName)), reply);
      if newWallet.Some? && hasCallback {
        created := created + [newWallet.value.walletId];
      }
      isCreatingWallet := false;
    }
  }
}
