/**
 * The keyword arguments `main` hands to `wish_from_kwargs`, and the call a
 * wish stands for.
 */
module Kwargs {

  /** A Python argument value: a string, an int, or None. */
  datatype Arg = Text(s: string) | Number(n: int) | NoValue

  /** Python truthiness: None, "" and 0 are false. */
  predicate Truthy(a: Arg) {
    match a
    case Text(s) => s != ""
    case Number(n) => n != 0
    case NoValue => false
  }

  /** `ref or 'latest'`. */
  function OrLatest(ref: Arg): Arg {
    if Truthy(ref) then ref else Text("latest")
  }

  /** `kwargs.pop(key, None)`. */
  function Get(kwargs: map<string, Arg>, key: string): Arg {
    if key in kwargs then kwargs[key] else NoValue
  }

  /** The exceptions dispatch can raise: no "wish" key (the name is then unbound), or no "ref" key for an upgrade. */
  datatype DispatchError = NoWish | NoRef

  /** The operation a wish calls, if any. */
  datatype Wish =
    | CallUpgrade(ref: Arg)
    | CallInspect
    | CallLatest
    | CallInit
    | CallMakeMigration(template: Arg, message: Arg)
    | NoCall                      // "Unknown wish": result None, nothing called
    | Raises(error: DispatchError)
}
