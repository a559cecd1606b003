/** The per-record memory the generator keeps between runs (`sagex_state.json`), held in
    memory: the record id maps to the paths written for it and the base name chosen. */
module State {

  /** One state entry. A field the file lacks reads as "" (`paths.get(key, '')`), which the
      generator treats exactly like a missing field. */
  datatype StateEntry = StateEntry(linkPath: string, nfoPath: string, originalPath: string, resolvedBase: string)

  type StateMap = map<string, StateEntry>

  /** `_get_resolved_filename_base(id)`: the remembered base, "" when there is none. */
  function RecalledBase(state: StateMap, id: string): string {
    if id in state then state[id].resolvedBase else ""
  }
}
