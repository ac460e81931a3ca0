/** Optional values, used wherever the bot's Python code returns None or
    reads a setting that may be missing. */
module Wrappers {

  datatype Option<+T> = None | Some(value: T)
}
