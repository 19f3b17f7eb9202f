/** A patch plan: a list of changes, each naming a file, a symbol and the edit to make there. */
module Plan {
  import opened Prelude

  /** The `patch` dictionary; an absent entry is the empty string, None or 0. */
  datatype Patch = Patch(symbol: string, action: string, targetNode: Option<string>, code: string,
                         oldText: string, newText: string, statementIndex: int, blockIndex: int,
                         oldName: string, newName: string)

  /** `patch` is None for a change whose dictionary is missing or empty. */
  datatype Change = Change(file: string, symbol: string, patch: Option<Patch>)
}
