/**
 * The protected-navigation gate (app-v2.js, navTo): a screen of the
 * protected list is refused without a stored token and the login card is
 * shown instead; afterwards at most one screen, the one navigated to, is
 * displayed.
 */
module Navigation {
  import opened Wrappers

  /** The screens that need a logged-in session. */
  const ProtectedPages: seq<string> :=
    ["homeScreen", "topupScreen", "sendScreen", "merchantScreen", "historySection", "profileScreen"]

  const LoginCard: string := "auth"

  /** `localStorage.getItem("jwt")` is truthy: present and not empty. */
  predicate HasToken(token: Option<string>)
  {
    token.Some? && token.value != ""
  }

  /** The screen `navTo(id)` actually shows. */
  function EffectiveTarget(token: Option<string>, id: string): (r: string)
    ensures r == id || r == LoginCard
    ensures r != id <==> !HasToken(token) && id in ProtectedPages
    ensures !HasToken(token) ==> r !in ProtectedPages
    ensures HasToken(token) ==> r == id
  {
    if !HasToken(token) && id in ProtectedPages then LoginCard else id
  }

  /** What the navigation starts after switching screens. */
  datatype FollowUp = NoFollowUp | ReloadProfile | ReloadLedger

  class Screens {
    /** Ids of the elements that are screens (`.screen, .auth-card`). */
    const pages: set<string>
    /** The screens displayed and marked active. */
    var shown: set<string>
    var sidebarVisible: bool
    /** Toast messages raised so far, oldest first. */
    var toasts: seq<string>

    ghost predicate Valid()
      reads this
    {
      shown <= pages
    }

    constructor (pages: set<string>, shown: set<string>)
      requires shown <= pages
      ensures Valid()
      ensures this.pages == pages && this.shown == shown
      ensures sidebarVisible && toasts == []
    {
      this.pages := pages;
      this.shown := shown;
      sidebarVisible := true;
      toasts := [];
    }

    method NavTo(token: Option<string>, id: string) returns (next: FollowUp)
      requires Valid()
      modifies this
      ensures Valid()
      ensures var target := EffectiveTarget(token, id);
        && shown == (if target in pages then {target} else {})
        && sidebarVisible == (target != LoginCard)
        && toasts == old(toasts) + (if target != id then ["Please login first"] else [])
        && next == (if target == "profileScreen" then ReloadProfile
                    else if target == "historySection" then ReloadLedger
                    else NoFollowUp)
      ensures |shown| <= 1
      ensures !HasToken(token) ==> forall s :: s in shown ==> s !in ProtectedPages
    {
      var target := id;
      if !HasToken(token) && id in ProtectedPages {
        toasts := toasts + ["Please login first"];
        target := LoginCard;
      }
      shown := {};
      if target in pages {
        shown := {target};
      }
      sidebarVisible := target != LoginCard;
      if target == "profileScreen" {
        next := ReloadProfile;
      } else if target == "historySection" {
        next := ReloadLedger;
      } else {
        next := NoFollowUp;
      }
    }
  }
}
