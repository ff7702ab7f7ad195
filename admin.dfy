/**
 * The decisions of djangocms_navigation/admin.py: the guards of
 * MenuItemAdmin.move_node, the three permission checks of MenuItemAdmin,
 * the columns of MenuContentAdmin.get_list_display and the visibility of
 * the edit link.
 *
 * Whatever Django, versioning or version locking would answer (the
 * superclass permission, whether the content exists, whether it is unlocked
 * for the user, the error raised by check_modify, whether the user may follow
 * the edit redirect) is an input. Whether versioning and version locking are
 * installed is an input too.
 */
module NavigationAdmin {
  import opened Wrappers
  import opened NavigationHelpers

  /** LOCK_MESSAGE: its wording depends on whether version locking is installed. */
  function LockMessage(usingLock: bool): (m: string)
    ensures usingLock ==> m == "The item is currently locked or you don't have permission to change it"
    ensures !usingLock ==> m == "You don't have permission to change this item"
  {
    if usingLock then "The item is currently locked or you don't have permission to change it"
    else "You don't have permission to change this item"
  }

  const OutsideRootMessage := "Cannot move a node outside of the root menu node"

  // ---------------------------------------------------------------- permissions

  /** has_add_permission: never without a menu content id on the request, otherwise the superclass's answer. */
  function HasAddPermission(hasMenuContentId: bool, superAdd: bool): (r: bool)
    ensures !hasMenuContentId ==> !r
    ensures hasMenuContentId ==> r == superAdd
  {
    hasMenuContentId && superAdd
  }

  /**
   * has_change_permission: never without a menu content id; never for an
   * object that version locking keeps locked for the user; otherwise the
   * superclass's answer. `unlocked` is consulted only for a given object
   * while locking is installed.
   */
  function HasChangePermission(hasMenuContentId: bool, objGiven: bool, usingLock: bool, unlocked: bool, superChange: bool): (r: bool)
    ensures !hasMenuContentId ==> !r
    ensures objGiven && usingLock && !unlocked ==> !r
    ensures hasMenuContentId && !(objGiven && usingLock && !unlocked) ==> r == superChange
    ensures r ==> superChange
  {
    if !hasMenuContentId then false
    else if objGiven && usingLock && !unlocked then false
    else superChange
  }

  /** has_view_permission: never without a menu content id, otherwise the superclass's change permission. */
  function HasViewPermission(hasMenuContentId: bool, superChange: bool): (r: bool)
    ensures !hasMenuContentId ==> !r
    ensures hasMenuContentId ==> r == superChange
  {
    hasMenuContentId && superChange
  }

  /**
   * Viewing asks the superclass the same question as changing, without the
   * object lock: the two agree whenever no locked object is involved, and a
   * locked object can be viewable without being changeable.
   */
  lemma ViewIsChangeWithoutLock(hasMenuContentId: bool, objGiven: bool, usingLock: bool, unlocked: bool, superChange: bool)
    ensures !(objGiven && usingLock && !unlocked) ==>
      HasViewPermission(hasMenuContentId, superChange) == HasChangePermission(hasMenuContentId, objGiven, usingLock, unlocked, superChange)
    ensures HasChangePermission(hasMenuContentId, objGiven, usingLock, unlocked, superChange) ==>
      HasViewPermission(hasMenuContentId, superChange)
  {
  }

  // ---------------------------------------------------------------- move_node

  /** What move_node answers: a 404, a 400 with a message, or the treebeard move of the superclass. */
  datatype MoveResponse = NotFound | BadRequest(message: string) | Delegated

  /** The versioning guards let the move through: versioning is off, or the content exists, may be changed and may be modified. */
  predicate VersioningAllows(versioningEnabled: bool, contentExists: bool, usingLock: bool, unlocked: bool, superChange: bool, modifyError: Option<string>)
  {
    !versioningEnabled ||
    (contentExists && HasChangePermission(true, true, usingLock, unlocked, superChange) && modifyError.None?)
  }

  /**
   * The answer of move_node. With versioning on, a missing menu content is a
   * 404, a refused change permission is a 400 with the lock message and a
   * failing check_modify a 400 with its error text; only then is a parent id
   * of "0" refused; everything else goes to the superclass.
   */
  function MoveNodeResponse(versioningEnabled: bool, contentExists: bool, usingLock: bool, unlocked: bool, superChange: bool,
                            modifyError: Option<string>, parentId: Option<string>): (r: MoveResponse)
    ensures r == NotFound <==> versioningEnabled && !contentExists
    ensures versioningEnabled && contentExists && !HasChangePermission(true, true, usingLock, unlocked, superChange) ==>
      r == BadRequest(LockMessage(usingLock))
    ensures versioningEnabled && contentExists && HasChangePermission(true, true, usingLock, unlocked, superChange) && modifyError.Some? ==>
      r == BadRequest(modifyError.value)
    ensures VersioningAllows(versioningEnabled, contentExists, usingLock, unlocked, superChange, modifyError) && parentId == Some("0") ==>
      r == BadRequest(OutsideRootMessage)
    ensures r == Delegated <==>
      VersioningAllows(versioningEnabled, contentExists, usingLock, unlocked, superChange, modifyError) && parentId != Some("0")
  {
    if versioningEnabled && !contentExists then NotFound
    else if versioningEnabled && !HasChangePermission(true, true, usingLock, unlocked, superChange) then BadRequest(LockMessage(usingLock))
    else if versioningEnabled && modifyError.Some? then BadRequest(modifyError.value)
    else if parentId == Some("0") then BadRequest(OutsideRootMessage)
    else Delegated
  }

  /** The versioning guards come first: once they refuse, the posted parent id plays no part in the answer. */
  lemma VersioningGuardsComeFirst(versioningEnabled: bool, contentExists: bool, usingLock: bool, unlocked: bool, superChange: bool,
                                  modifyError: Option<string>, parentId: Option<string>, otherParentId: Option<string>)
    requires !VersioningAllows(versioningEnabled, contentExists, usingLock, unlocked, superChange, modifyError)
    ensures MoveNodeResponse(versioningEnabled, contentExists, usingLock, unlocked, superChange, modifyError, parentId) ==
            MoveNodeResponse(versioningEnabled, contentExists, usingLock, unlocked, superChange, modifyError, otherParentId)
    ensures MoveNodeResponse(versioningEnabled, contentExists, usingLock, unlocked, superChange, modifyError, parentId) != Delegated
  {
  }

  /** Content locked for the user is never moved, whatever the superclass would allow. */
  lemma LockedContentIsNeverMoved(contentExists: bool, superChange: bool, modifyError: Option<string>, parentId: Option<string>)
    requires contentExists
    ensures MoveNodeResponse(true, contentExists, true, false, superChange, modifyError, parentId) ==
            BadRequest("The item is currently locked or you don't have permission to change it")
  {
  }

  /** The request as move_node sees it: the posted parent id, the attribute it sets and the messages it queues. */
  class AdminRequest {
    const postParentId: Option<string>
    var menuContentId: Option<nat>
    var messages: seq<string>

    constructor (postParentId: Option<string>)
      ensures this.postParentId == postParentId && menuContentId.None? && messages == []
    {
      this.postParentId := postParentId;
      menuContentId := None;
      messages := [];
    }
  }

  /**
   * move_node: with versioning on and the content found, it stores the menu
   * content id on the request before asking has_change_permission, so that
   * check always sees the id; every 400 also queues its message.
   */
  method MoveNode(request: AdminRequest, menuContentId: nat, versioningEnabled: bool, contentExists: bool, usingLock: bool,
                  unlocked: bool, superChange: bool, modifyError: Option<string>) returns (resp: MoveResponse)
    modifies request
    ensures resp == MoveNodeResponse(versioningEnabled, contentExists, usingLock, unlocked, superChange, modifyError, request.postParentId)
    ensures request.menuContentId == (if versioningEnabled && contentExists then Some(menuContentId) else old(request.menuContentId))
    ensures request.messages == (if resp.BadRequest? then old(request.messages) + [resp.message] else old(request.messages))
  {
    if versioningEnabled {
      if !contentExists {
        return NotFound;
      }
      request.menuContentId := Some(menuContentId);
      var changePerm := HasChangePermission(request.menuContentId.Some?, true, usingLock, unlocked, superChange);
      if !changePerm {
        request.messages := request.messages + [LockMessage(usingLock)];
        return BadRequest(LockMessage(usingLock));
      }
      if modifyError.Some? {
        request.messages := request.messages + [modifyError.value];
        return BadRequest(modifyError.value);
      }
    }
    if request.postParentId == Some("0") {
      request.messages := request.messages + [OutsideRootMessage];
      return BadRequest(OutsideRootMessage);
    }
    return Delegated;
  }

  // ---------------------------------------------------------------- MenuContentAdmin

  /** A changelist column: a field or method name, or the bound actions callable. */
  datatype Column = Field(name: string) | ListActions

  /**
   * get_list_display: the title first; with versioning the author, modified
   * date and state, the lock column only when version locking is installed,
   * and the actions last; without versioning the menu item and preview links.
   */
  method GetListDisplay(versioningEnabled: bool, usingLock: bool) returns (columns: seq<Column>)
    ensures |columns| > 0 && columns[0] == Field("title")
    ensures versioningEnabled ==>
      |columns| >= 5 &&
      columns[1..4] == [Field("get_author"), Field("get_modified_date"), Field("get_versioning_state")] &&
      columns[|columns| - 1] == ListActions
    ensures Field("is_locked") in columns <==> versioningEnabled && usingLock
    ensures ListActions in columns <==> versioningEnabled
    ensures versioningEnabled ==> |columns| == (if usingLock then 6 else 5)
    ensures !versioningEnabled ==> columns == [Field("title"), Field("get_menuitem_link"), Field("get_preview_link")]
    ensures forall i, j :: 0 <= i < j < |columns| ==> columns[i] != columns[j]
  {
    columns := [Field("title")];
    if versioningEnabled {
      columns := columns + [Field("get_author"), Field("get_modified_date"), Field("get_versioning_state")];
      if usingLock {
        columns := columns + [Field("is_locked")];
      }
      columns := columns + [ListActions];
    } else {
      columns := columns + [Field("get_menuitem_link"), Field("get_preview_link")];
    }
  }

  /** The edit button: not rendered at all, or rendered enabled or disabled. */
  datatype EditLink = Hidden | EditIcon(disabled: bool)

  /**
   * _get_edit_link: hidden for versions that are neither draft nor published;
   * otherwise disabled when asked to be or when the user may not follow the
   * edit redirect.
   */
  function GetEditLink(state: VersionState, disabled: bool, editRedirectAllowed: bool): (r: EditLink)
    ensures r.Hidden? <==> state != Draft && state != Published
    ensures r.EditIcon? ==> (r.disabled <==> disabled || !editRedirectAllowed)
  {
    if state != Draft && state != Published then Hidden
    else EditIcon(disabled || !editRedirectAllowed)
  }

  /** Whether the button shows depends on the state alone; the permission answers only grey it out. */
  lemma EditLinkVisibilityIsByState(state: VersionState, disabled: bool, allowed: bool, otherDisabled: bool, otherAllowed: bool)
    ensures GetEditLink(state, disabled, allowed).Hidden? == GetEditLink(state, otherDisabled, otherAllowed).Hidden?
    ensures GetEditLink(state, disabled, allowed).Hidden? <==> state in {Unpublished, Archived}
  {
  }
}
