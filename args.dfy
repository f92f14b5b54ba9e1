/**
 * `FixArgs`: before every query and exec, each argument whose kind is
 * string is replaced, in the caller's own slice, by a plain `string` with
 * the same text, so that the driver accepts values of named string types.
 */
module Args {
  import opened Driver

  /** What `FixArgs` makes of one argument. */
  function Fixed(a: Arg): (r: Arg)
    ensures a.IsStringKind() ==> r == Str(a.text)
    ensures !a.IsStringKind() ==> r == a
  {
    match a
    case Str(_) => a
    case NamedStr(_, text) => Str(text)
    case Opaque(_, _) => a
  }

  /** The argument list after `FixArgs`, element by element. */
  function FixedArgs(args: seq<Arg>): (r: seq<Arg>)
    ensures |r| == |args|
    ensures forall i :: 0 <= i < |args| ==> r[i] == Fixed(args[i])
  {
    if args == [] then [] else [Fixed(args[0])] + FixedArgs(args[1..])
  }

  /** `FixArgs(args)`: rewrites the string-kinded elements of `args` in place. */
  method FixArgs(args: array<Arg>)
    modifies args
    ensures args[..] == FixedArgs(old(args[..]))
  {
    for i := 0 to args.Length
      invariant forall j :: 0 <= j < i ==> args[j] == Fixed(old(args[j]))
      invariant forall j :: i <= j < args.Length ==> args[j] == old(args[j])
    {
      if args[i].IsStringKind() {
        args[i] := Str(args[i].text);
      }
    }
  }

  /** Normalising twice is normalising once. */
  lemma FixedArgsIdempotent(args: seq<Arg>)
    ensures FixedArgs(FixedArgs(args)) == FixedArgs(args)
  {
  }
}
