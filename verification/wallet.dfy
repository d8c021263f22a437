/** The connected account as the dashboard shows and checks it: the
    abbreviated address of `updateWalletInfo` and the owner comparison of
    `checkIfOwner`. */
module Wallet {
  import opened Wrappers
  import opened Text

  // ---------------------------------------------------------------------
  // updateWalletInfo
  // ---------------------------------------------------------------------

  /** `${a.slice(0, 6)}...${a.slice(-4)}`: up to six leading characters,
      three dots, and up to four trailing characters, which overlap the
      leading ones for an address shorter than ten. */
  function Abbreviate(address: string): (shown: string)
    ensures var front, back := Min(6, |address|), Min(4, |address|);
      && |shown| == front + 3 + back
      && shown[..front] == address[..front]
      && shown[front..front + 3] == "..."
      && shown[front + 3..] == address[|address| - back..]
  {
    var head, tail := SliceFront(address, 6), SliceBack(address, 4);
    assert |head| == Min(6, |address|) && |tail| == Min(4, |address|);
    head + "..." + tail
  }

  function Min(a: int, b: int): int
  {
    if a <= b then a else b
  }

  /** For an address of at least ten characters the display is its first
      six characters, three dots and its last four characters. */
  lemma AbbreviateParts(address: string)
    requires |address| >= 10
    ensures var shown := Abbreviate(address);
      && shown[..6] == address[..6]
      && shown[6..9] == "..."
      && shown[9..] == address[|address| - 4..]
  {
    var shown := Abbreviate(address);
    assert shown == address[..6] + "..." + address[|address| - 4..];
  }

  /** Two long addresses are displayed alike exactly when they agree in
      their first six and their last four characters. */
  lemma AbbreviateCollides(a: string, b: string)
    requires |a| >= 10 && |b| >= 10
    ensures Abbreviate(a) == Abbreviate(b) <==> a[..6] == b[..6] && a[|a| - 4..] == b[|b| - 4..]
  {
    AbbreviateParts(a);
    AbbreviateParts(b);
    if a[..6] == b[..6] && a[|a| - 4..] == b[|b| - 4..] {
      assert Abbreviate(a) == a[..6] + "..." + a[|a| - 4..];
      assert Abbreviate(b) == b[..6] + "..." + b[|b| - 4..];
    }
  }

  // ---------------------------------------------------------------------
  // checkIfOwner
  // ---------------------------------------------------------------------

  /** `owner.toLowerCase() === userAddress.toLowerCase()`. */
  predicate SameAccount(owner: string, user: string)
  {
    ToLower(owner) == ToLower(user)
  }

  /** The comparison is character by character, ignoring the case of
      ASCII letters. */
  lemma SameAccountPointwise(owner: string, user: string)
    ensures SameAccount(owner, user)
        <==> |owner| == |user| && forall k :: 0 <= k < |owner| ==> LowerChar(owner[k]) == LowerChar(user[k])
  {
    if |owner| == |user| && forall k :: 0 <= k < |owner| ==> LowerChar(owner[k]) == LowerChar(user[k]) {
      assert forall k :: 0 <= k < |owner| ==> ToLower(owner)[k] == ToLower(user)[k];
    }
    if SameAccount(owner, user) {
      assert |owner| == |ToLower(owner)| == |ToLower(user)| == |user|;
      forall k | 0 <= k < |owner| ensures LowerChar(owner[k]) == LowerChar(user[k]) {
        assert ToLower(owner)[k] == ToLower(user)[k];
      }
    }
  }

  lemma LowerOfUpper(c: char)
    ensures LowerChar(UpperChar(c)) == LowerChar(c)
  {
  }

  /** A checksummed address, its lower-case and its upper-case spelling
      are all the same account. */
  lemma SameAccountIgnoresCase(owner: string, user: string)
    ensures SameAccount(owner, owner)
    ensures SameAccount(owner, user) <==> SameAccount(ToUpper(owner), user)
    ensures SameAccount(owner, user) <==> SameAccount(ToLower(owner), user)
    ensures SameAccount(owner, user) <==> SameAccount(user, owner)
  {
    assert ToLower(ToUpper(owner)) == ToLower(owner) by {
      forall k | 0 <= k < |owner| ensures ToLower(ToUpper(owner))[k] == ToLower(owner)[k] {
        LowerOfUpper(owner[k]);
      }
    }
    assert ToLower(ToLower(owner)) == ToLower(owner);
  }

  /** `checkIfOwner`: whether the admin panel is shown. `owner` is what
      `contract.owner()` returned (`None` when the call threw); reading
      `toLowerCase` of a missing user address throws too. Either exception
      is caught and leaves the panel hidden. */
  function CheckIfOwner(owner: Option<string>, userAddress: Option<string>): (showPanel: bool)
    ensures showPanel <==> owner.Some? && userAddress.Some? && SameAccount(owner.value, userAddress.value)
  {
    match (owner, userAddress)
    case (Some(o), Some(u)) => ToLower(o) == ToLower(u)
    case _ => false
  }

  /** Upper-casing the owner's address or lower-casing the user's does not
      change whether the panel appears. */
  lemma OwnerPanelIgnoresCase(owner: string, user: string)
    ensures CheckIfOwner(Some(owner), Some(user)) == CheckIfOwner(Some(ToUpper(owner)), Some(ToLower(user)))
  {
    SameAccountIgnoresCase(owner, user);
    SameAccountIgnoresCase(user, ToUpper(owner));
  }
}
