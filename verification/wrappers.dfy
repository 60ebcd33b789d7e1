/** Optional values: the board uses them where the JavaScript source uses
    `null` or `undefined` (no active drag, no task under the pointer, no
    task with a given id). */
module Wrappers {

  datatype Option<+T> = None | Some(value: T)
}
