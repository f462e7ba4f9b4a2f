/** Python's `str.endswith`, used by the receiver's topic filter and the config-path check. */
module Strings {
  predicate EndsWith(s: string, suffix: string) {
    |suffix| <= |s| && s[|s| - |suffix|..] == suffix
  }
}
