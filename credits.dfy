/** The per-user credit ledger of app/src/contexts/CreditContext.tsx: every user's
    balance in browser storage, and the signed-in user's balance on screen. */
module Credits {
  import opened Types

  /** `allCredits[id] || 0`, and 0 when nobody is signed in. */
  function CreditOf(stored: map<UserId, int>, user: Option<UserId>): (r: int)
    ensures user.None? ==> r == 0
    ensures user.Some? && user.value !in stored ==> r == 0
    ensures user.Some? && user.value in stored ==> r == stored[user.value]
  {
    match user
    case None => 0
    case Some(id) => if id in stored then stored[id] else 0
  }

  /** A saved balance is what the next load of that user reads, and no other user's
      load changes. */
  lemma SaveThenLoad(stored: map<UserId, int>, id: UserId, amount: int, other: UserId)
    requires other != id
    ensures CreditOf(stored[id := amount], Some(id)) == amount
    ensures CreditOf(stored[id := amount], Some(other)) == CreditOf(stored, Some(other))
  {
  }

  class CreditStore {
    /** The `puyuan_credits` entry of browser storage. */
    var stored: map<UserId, int>
    var credit: int
    /** The signed-in user's id, if any. */
    var user: Option<UserId>

    constructor (saved: map<UserId, int>)
      ensures stored == saved && credit == 0 && user.None?
    {
      stored := saved;
      credit := 0;
      user := None;
    }

    /** The effect that runs when the signed-in user changes. */
    method SwitchUser(u: Option<UserId>)
      modifies this
      ensures user == u && credit == CreditOf(stored, u)
      ensures stored == old(stored)
    {
      user := u;
      if u.Some? {
        credit := if u.value in stored then stored[u.value] else 0;
      } else {
        credit := 0;
      }
    }

    /** `saveCredit`: only that user's entry is written, and the balance on screen
        becomes the new value. */
    method SaveCredit(userId: UserId, newCredit: int)
      modifies this
      ensures stored == old(stored)[userId := newCredit]
      ensures forall other :: other != userId ==> CreditOf(stored, Some(other)) == CreditOf(old(stored), Some(other))
      ensures credit == newCredit && user == old(user)
    {
      var all := stored;
      all := all[userId := newCredit];
      stored := all;
      credit := newCredit;
    }

    /** `addCredit`: ignored when signed out; otherwise the balance on screen plus the
        amount is saved for the user. */
    method AddCredit(amount: int)
      modifies this
      ensures user == old(user)
      ensures old(user).None? ==> stored == old(stored) && credit == old(credit)
      ensures old(user).Some? ==>
        && credit == old(credit) + amount
        && stored == old(stored)[old(user).value := old(credit) + amount]
    {
      if user.None? {
        return;
      }
      SaveCredit(user.value, credit + amount);
    }

    /** `resetCredit`: ignored when signed out; otherwise the user's balance becomes 0. */
    method ResetCredit()
      modifies this
      ensures user == old(user)
      ensures old(user).None? ==> stored == old(stored) && credit == old(credit)
      ensures old(user).Some? ==> credit == 0 && stored == old(stored)[old(user).value := 0]
    {
      if user.None? {
        return;
      }
      SaveCredit(user.value, 0);
    }
  }
}
