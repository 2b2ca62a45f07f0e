/** The deprecated command-line flags of the image-classification
    compression example. Each one is declared with a "type converter" that
    logs a warning and returns `None`, so whatever the user typed after the
    flag is dropped. */
module Deprecation {
  import opened Wrappers

  /** The shape of the logged message. */
  datatype Warning =
    | DeprecatedTry(oldKeys: seq<string>, newKeys: seq<string>)  // "<old> have been deprecated. Try <new> instead."
    | Deprecated(oldKeys: seq<string>)                          // "<old> have been deprecated."
    | Generic                                                   // "Some arguments have been deprecated and ignored."

  /** Python truthiness of an optional list of flag names: `None` and `[]`
      are false. */
  predicate Truthy(keys: Option<seq<string>>) {
    keys.Some? && keys.value != []
  }

  /** Every flag name the warning shows the user. */
  function Named(w: Warning): set<string> {
    match w
    case DeprecatedTry(o, n) => (set k | k in o) + (set k | k in n)
    case Deprecated(o) => set k | k in o
    case Generic => {}
  }

  /** The message `deprecation_warning(old_keys=…, new_keys=…)` logs. */
  function DeprecationWarning(oldKeys: Option<seq<string>>, newKeys: Option<seq<string>>): (w: Warning)
    // a replacement is suggested exactly when both lists are non-empty
    ensures w.DeprecatedTry? <==> Truthy(oldKeys) && Truthy(newKeys)
    // the generic text is used exactly when there is no old flag to name
    ensures w.Generic? <==> !Truthy(oldKeys)
    // the old keys fill the "deprecated" slot, the new keys the "Try … instead" slot
    ensures w.DeprecatedTry? ==> w.oldKeys == oldKeys.value && w.newKeys == newKeys.value
    ensures w.Deprecated? ==> w.oldKeys == oldKeys.value
    // the old keys are named whenever truthy, the new keys only when the old keys are
    // truthy too, and no other flag is named
    ensures Truthy(oldKeys) ==> forall k :: k in oldKeys.value ==> k in Named(w)
    ensures Truthy(oldKeys) && Truthy(newKeys) ==> forall k :: k in newKeys.value ==> k in Named(w)
    ensures forall k :: k in Named(w) ==>
              (Truthy(oldKeys) && k in oldKeys.value) || (Truthy(newKeys) && k in newKeys.value)
  {
    if Truthy(oldKeys) && Truthy(newKeys) then DeprecatedTry(oldKeys.value, newKeys.value)
    else if Truthy(oldKeys) then Deprecated(oldKeys.value)
    else Generic
  }

  /** A deprecated flag: its option strings, which double as the old keys of
      its warning, and the flags that replace it. */
  datatype DeprecatedFlag = DeprecatedFlag(keys: seq<string>, replacements: seq<string>)

  /** The three deprecated flags, in declaration order. */
  const DeprecatedFlags: seq<DeprecatedFlag> := [
    DeprecatedFlag(["--valid-size", "--validation-size"], ["--validation-split", "--vs"]),
    DeprecatedFlag(["--print-freq", "-p"], ["--print-period"]),
    DeprecatedFlag(["-j", "--workers"], ["--loaders"])
  ]

  /** The outcome of parsing one occurrence of a deprecated flag: the
      warning logged and the value stored for it. */
  datatype Parsed = Parsed(warning: Warning, value: Option<string>)

  /** The flag's converter applied to the text `raw` the user supplied:
      `deprecation_warning` with the flag's keys bound, called on `raw`. */
  function ConvertDeprecated(flag: DeprecatedFlag, raw: string): (p: Parsed)
    // the converter returns nothing, so the supplied text never reaches the configuration
    ensures p.value.None?
    // the warning names the flag as deprecated and suggests its replacements when it has any
    ensures flag.keys != [] && flag.replacements != [] ==>
              p.warning == DeprecatedTry(flag.keys, flag.replacements)
    ensures flag.keys != [] && flag.replacements == [] ==> p.warning == Deprecated(flag.keys)
    ensures flag.keys == [] ==> p.warning == Generic
  {
    Parsed(DeprecationWarning(Some(flag.keys), Some(flag.replacements)), None)
  }

  /** Every deprecated flag warns naming itself and its replacement, and
      drops the user's value whatever it was. */
  lemma DeprecatedFlagsWarnAndDiscard(i: nat, raw: string)
    requires i < |DeprecatedFlags|
    ensures var flag := DeprecatedFlags[i];
            var p := ConvertDeprecated(flag, raw);
            && p.warning == DeprecatedTry(flag.keys, flag.replacements)
            && p.value == None
  {
  }

  /** A sanity property of the three declared flags: no replacement their
      warnings suggest is itself a deprecated option string, so following a
      suggestion never leads to another warning. */
  lemma ReplacementsNotDeprecated(i: nat, j: nat)
    requires i < |DeprecatedFlags| && j < |DeprecatedFlags|
    ensures forall k :: k in DeprecatedFlags[i].replacements ==> k !in DeprecatedFlags[j].keys
  {
  }
}
