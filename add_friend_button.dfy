/** The add-friend button of src/components/AddFriendButton.tsx: a status derived from
    the cached friend list, and a click handler that moves through `sending` to the
    outcome of the request. */
module AddFriendButton {
  import opened Types
  import opened Text
  import opened ServerStore

  datatype RequestStatus = Idle | Sending | Sent | Error | AlreadyFriend | AlreadySent

  /** How the awaited `sendFriendRequest` ended: a reply with `success`, a reply with an
      error text (`''` when it carried none), or a thrown error with its message. */
  datatype Outcome = Succeeded | Failed(error: string) | Threw(message: string)

  const LoginFirst: string := "请先登录"
  const SendFailed: string := "发送失败"
  const SendFailedRetry: string := "发送失败，请重试"

  /** The status effect: signed out is idle; otherwise the first cached record for the
      target decides (accepted, pending), and anything else is idle. */
  function DerivedStatus(signedIn: bool, friends: seq<Friend>, target: UserId): (r: RequestStatus)
    ensures r == Idle || r == AlreadyFriend || r == AlreadySent
    ensures r == AlreadyFriend <==>
      signedIn && FindFriend(friends, target).Some? &&
      friends[FindFriend(friends, target).value].status == Some(Accepted)
    ensures r == AlreadySent <==>
      signedIn && FindFriend(friends, target).Some? &&
      friends[FindFriend(friends, target).value].status == Some(Pending)
  {
    if !signedIn then Idle
    else match FindFriend(friends, target)
      case None => Idle
      case Some(i) =>
        if friends[i].status == Some(Accepted) then AlreadyFriend
        else if friends[i].status == Some(Pending) then AlreadySent
        else Idle
  }

  /** The status a refused request ends in, read off its error text. */
  function FailureStatus(error: string): (r: RequestStatus)
    ensures r == AlreadyFriend || r == AlreadySent || r == Error
    ensures r == AlreadyFriend <==> Contains(error, "已是好友")
    ensures r == AlreadySent <==> !Contains(error, "已是好友") && Contains(error, "申请已发送")
  {
    if Contains(error, "已是好友") then AlreadyFriend
    else if Contains(error, "申请已发送") then AlreadySent
    else Error
  }

  /** A click is ignored while a request is in flight or once it can no longer help. */
  predicate Blocked(s: RequestStatus) {
    s == Sending || s == Sent || s == AlreadyFriend
  }

  /** Whether the error line under the button shows. */
  predicate ShowsError(s: RequestStatus, errorMessage: string) {
    errorMessage != "" && s == Error
  }

  lemma ContainsSelf(s: string)
    ensures Contains(s, s)
  {
    assert s[..|s|] == s;
  }

  /** The server's "already friends" refusal leaves the button showing a friend. */
  lemma RefusalAlreadyFriends()
    ensures FailureStatus(ErrorText(AlreadyFriends)) == AlreadyFriend
  {
    ContainsSelf("已是好友");
  }

  /** The server's refusal for a request pending in either direction leaves the button
      showing the request as sent. */
  lemma RefusalPending()
    ensures FailureStatus(ErrorText(RequestAlreadyPending)) == AlreadySent
  {
    var pending := ErrorText(RequestAlreadyPending);
    assert pending[..5] == "申请已发送";
    NoMatch(pending, "已是好友");
  }

  /** The server's other refusals of a friend request leave a retryable error. */
  lemma RefusalOther(e: Error)
    requires e == InvalidUserId || e == UserNotFound
    ensures FailureStatus(ErrorText(e)) == Error
  {
    NoMatch(ErrorText(e), "已是好友");
    NoMatch(ErrorText(e), "申请已发送");
  }

  /** A text in which the first two characters of `sub` never occur side by side does
      not contain `sub`. */
  lemma {:induction false} NoMatch(s: string, sub: string)
    requires |sub| >= 2
    requires forall i :: 0 <= i < |s| - 1 ==> s[i] != sub[0] || s[i + 1] != sub[1]
    ensures !Contains(s, sub)
    decreases |s|
  {
    if |sub| <= |s| {
      assert s[..|sub|][0] == s[0] && s[..|sub|][1] == s[1];
      NoMatch(s[1..], sub);
    }
  }

  class Button {
    var requestStatus: RequestStatus
    var errorMessage: string

    constructor ()
      ensures requestStatus == Idle && errorMessage == ""
    {
      requestStatus := Idle;
      errorMessage := "";
    }

    /** The status effect, run whenever the friend list, the target or the user changes. */
    method Refresh(signedIn: bool, friends: seq<Friend>, target: UserId)
      modifies this
      ensures requestStatus == DerivedStatus(signedIn, friends, target)
      ensures errorMessage == old(errorMessage)
    {
      if !signedIn {
        requestStatus := Idle;
        return;
      }
      var i := FindFriend(friends, target);
      if i.Some? && friends[i.value].status == Some(Accepted) {
        requestStatus := AlreadyFriend;
        return;
      }
      if i.Some? && friends[i.value].status == Some(Pending) {
        requestStatus := AlreadySent;
        return;
      }
      requestStatus := Idle;
    }

    /** `handleClick` up to its `await`: reports whether a request goes out. */
    method Click(signedIn: bool) returns (sends: bool)
      modifies this
      ensures !signedIn ==> !sends && errorMessage == LoginFirst && requestStatus == old(requestStatus)
      ensures signedIn && Blocked(old(requestStatus)) ==>
                !sends && requestStatus == old(requestStatus) && errorMessage == old(errorMessage)
      ensures signedIn && !Blocked(old(requestStatus)) ==>
                sends && requestStatus == Sending && errorMessage == ""
    {
      if !signedIn {
        errorMessage := LoginFirst;
        return false;
      }
      if requestStatus == Sending || requestStatus == Sent || requestStatus == AlreadyFriend {
        return false;
      }
      requestStatus := Sending;
      errorMessage := "";
      return true;
    }

    /** `handleClick` after its `await`. */
    method Settle(outcome: Outcome)
      modifies this
      ensures outcome.Succeeded? ==> requestStatus == Sent && errorMessage == old(errorMessage)
      ensures outcome.Failed? ==>
                && requestStatus == FailureStatus(outcome.error)
                && errorMessage == (if outcome.error == "" then SendFailed else outcome.error)
      ensures outcome.Threw? ==>
                && requestStatus == Error
                && errorMessage == (if outcome.message == "" then SendFailedRetry else outcome.message)
    {
      match outcome {
        case Succeeded =>
          requestStatus := Sent;
        case Failed(error) =>
          requestStatus := Error;
          errorMessage := if error == "" then SendFailed else error;
          if Contains(error, "已是好友") {
            requestStatus := AlreadyFriend;
          } else if Contains(error, "申请已发送") {
            requestStatus := AlreadySent;
          }
        case Threw(message) =>
          requestStatus := Error;
          errorMessage := if message == "" then SendFailedRetry else message;
      }
    }
  }
}
