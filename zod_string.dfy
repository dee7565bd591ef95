/**
 The part of a zod string schema that the registration schema uses: a chain
 of checks (`z.string().min(n, message)`, `z.string().email(message)`), run
 against one string value.

 None of these checks is fatal: zod runs every check of the chain, in the
 order it was written, and reports the message of each one that fails.
 */
module ZodString {
  import EmailShape

  /** One link of a `z.string()` chain, with its custom message. */
  datatype Check =
    | MinLength(n: nat, message: string)
    | EmailFormat(message: string)

  /**
   Whether `s` passes `c`. Lengths are counted in characters; zod counts
   UTF-16 code units. A value that passes an e-mail check is at least six
   characters long, so it also passes any `.min(n)` with `n <= 6`.
   */
  predicate Passes(s: string, c: Check)
    ensures c.EmailFormat? && Passes(s, c) ==> |s| >= 6
  {
    match c
    case MinLength(n, _) => |s| >= n
    case EmailFormat(_) => EmailShape.IsEmailShape(s)
  }

  /** The messages of the checks that `s` fails, in chain order. */
  function Run(s: string, checks: seq<Check>): (issues: seq<string>)
    ensures |issues| <= |checks|
  {
    if checks == [] then []
    else if Passes(s, checks[0]) then Run(s, checks[1..])
    else [checks[0].message] + Run(s, checks[1..])
  }

  /** A chain reports nothing exactly when every one of its checks passes. */
  lemma {:induction false} RunEmptyIff(s: string, checks: seq<Check>)
    ensures Run(s, checks) == [] <==> forall i :: 0 <= i < |checks| ==> Passes(s, checks[i])
  {
    if checks != [] {
      RunEmptyIff(s, checks[1..]);
      assert forall i :: 1 <= i < |checks| ==> checks[i] == checks[1..][i - 1];
    }
  }

  /** Checks run independently: the issues of a chain are those of its parts, in order. */
  lemma {:induction false} RunAppend(s: string, a: seq<Check>, b: seq<Check>)
    ensures Run(s, a + b) == Run(s, a) + Run(s, b)
  {
    if a == [] {
      assert a + b == b;
    } else {
      assert (a + b)[0] == a[0];
      assert (a + b)[1..] == a[1..] + b;
      RunAppend(s, a[1..], b);
      if !Passes(s, a[0]) {
        var m := a[0].message;
        calc {
          Run(s, a + b);
          [m] + Run(s, a[1..] + b);
          [m] + (Run(s, a[1..]) + Run(s, b));
          ([m] + Run(s, a[1..])) + Run(s, b);
        }
      }
    }
  }

  /** A one-check chain reports that check's message exactly when the check fails. */
  lemma RunSingle(s: string, c: Check)
    ensures Run(s, [c]) == if Passes(s, c) then [] else [c.message]
  {
    assert [c][1..] == [];
  }
}
