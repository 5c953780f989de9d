/** The close-popover route: which placeholder element replaces the open popover. */
module Popover {

  const EditPopover: string := "edit-popover"
  const AddPopover: string := "add-popover"

  /** The id of the empty element sent back for `/api/close-popover/:type`:
      the edit popover for type "edit", the add popover for every other type. */
  function PopoverId(kind: string): (id: string)
    ensures id == EditPopover <==> kind == "edit"
    ensures id == AddPopover <==> kind != "edit"
  {
    if kind == "edit" then EditPopover else AddPopover
  }
}
