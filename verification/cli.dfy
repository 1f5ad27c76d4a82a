// The command-line front end: where the addresses come from, how input
// lines are cleaned, and how results are collected one by one or from
// concurrent checks completing in any order.

module Cli {
  import opened Wrappers
  import opened Text
  import opened Model
  import Checker

  /** The checker as the command line calls it: only the address is set. */
  function CheckOne(svc: Checker.Services, email: string): Result<CheckResult, string> {
    Checker.Check(svc, DefaultParams(email))
  }

  function CheckFailure(email: string, cause: string): string {
    "failed to check email " + email + ": " + cause
  }

  // ---------------------------------------------------------------------
  // Input
  // ---------------------------------------------------------------------

  /** `readEmailsFromReader`: the trimmed non-blank lines in order, or the
      scanner's error. The text is what was read before any error. */
  function ReadEmails(text: string, readErr: Error): (r: Result<seq<string>, string>)
    ensures readErr.Some? ==> r == Err(readErr.value)
    ensures readErr.None? ==> r == Ok(TrimmedNonBlank(Lines(text)))
  {
    if readErr.Some? then Err(readErr.value) else Ok(TrimmedNonBlank(Lines(text)))
  }

  /** Where the addresses come from: a file (checked concurrently), else
      standard input, else the arguments (both checked one by one). */
  datatype Input = Input(emails: seq<string>, concurrent: bool)

  /** The input-selection part of `checkEmails`. Reading the file or
      standard input is given as the text read and the read error. */
  function SelectInput(file: string, fileText: Result<string, string>, stdin: bool, stdinText: Result<string, string>,
                       fileReadErr: Error, stdinReadErr: Error, args: seq<string>): (r: Result<Input, string>)
    ensures file != "" ==> (r.Ok? ==> r.value.concurrent) && (fileText.Err? ==> r == Err("failed to read emails from file: " + fileText.error))
    ensures file == "" && stdin ==> (r.Ok? ==> !r.value.concurrent) && (stdinText.Err? ==> r == Err("failed to read emails from stdin: " + stdinText.error))
    ensures file == "" && !stdin && args != [] ==> r == Ok(Input(args, false))
    ensures file == "" && !stdin && args == [] ==> r == Err("please provide an email via argument, --file, or --stdin")
  {
    if file != "" then
      match fileText
      case Err(e) => Err("failed to read emails from file: " + e)
      case Ok(text) =>
        match ReadEmails(text, fileReadErr)
        case Err(e) => Err("failed to read emails from file: " + e)
        case Ok(emails) => Ok(Input(emails, true))
    else if stdin then
      match stdinText
      case Err(e) => Err("failed to read emails from stdin: " + e)
      case Ok(text) =>
        match ReadEmails(text, stdinReadErr)
        case Err(e) => Err("failed to read emails from stdin: " + e)
        case Ok(emails) => Ok(Input(emails, false))
    else if |args| > 0 then Ok(Input(args, false))
    else Err("please provide an email via argument, --file, or --stdin")
  }

  /** A file wins over standard input and arguments, and standard input over
      arguments. */
  lemma InputPrecedence(file: string, text: string, stdinText: Result<string, string>, stdinReadErr: Error, args: seq<string>)
    requires file != ""
    ensures SelectInput(file, Ok(text), true, stdinText, None, stdinReadErr, args)
              == Ok(Input(TrimmedNonBlank(Lines(text)), true))
    ensures SelectInput("", Ok(text), true, Ok(text), None, None, args)
              == Ok(Input(TrimmedNonBlank(Lines(text)), false))
  {
  }

  // ---------------------------------------------------------------------
  // One by one
  // ---------------------------------------------------------------------

  /** A checker as the collectors see it; `CheckWith` is the real one. */
  type CheckFn = string -> Result<CheckResult, string>

  function CheckWith(svc: Checker.Services): CheckFn {
    email => CheckOne(svc, email)
  }

  /** The non-blank addresses, trimmed, in order. */
  function Valid(emails: seq<string>): seq<string> {
    TrimmedNonBlank(emails)
  }

  /** Whether every address checks without error. */
  predicate AllCheck(check: CheckFn, valid: seq<string>) {
    forall i :: 0 <= i < |valid| ==> check(valid[i]).Ok?
  }

  /** The first address (in order) whose check fails. */
  function FirstFailure(check: CheckFn, valid: seq<string>): (k: nat)
    requires !AllCheck(check, valid)
    ensures k < |valid| && check(valid[k]).Err?
    ensures forall i :: 0 <= i < k ==> check(valid[i]).Ok?
    decreases |valid|
  {
    if check(valid[0]).Err? then 0
    else
      assert !AllCheck(check, valid[1..]) by {
        var j :| 0 <= j < |valid| && check(valid[j]).Err?;
        assert valid[1..][j - 1] == valid[j];
      }
      var k := FirstFailure(check, valid[1..]);
      assert forall i :: 1 <= i < k + 1 ==> valid[i] == valid[1..][i - 1];
      k + 1
  }

  /** `processEmailsSequentially`: one result per non-blank address, in
      order, or the error of the first address that fails. */
  method ProcessSequentially(check: CheckFn, emails: seq<string>) returns (r: Result<seq<CheckResult>, string>)
    ensures var valid := Valid(emails);
            && (AllCheck(check, valid) ==>
                  r.Ok? && |r.value| == |valid|
                  && forall i :: 0 <= i < |valid| ==> r.value[i] == check(valid[i]).value)
            && (!AllCheck(check, valid) ==>
                  var k := FirstFailure(check, valid);
                  r == Err(CheckFailure(valid[k], check(valid[k]).error)))
  {
    var valid := Valid(emails);
    var results: seq<CheckResult> := [];
    var i := 0;
    while i < |valid|
      invariant 0 <= i <= |valid|
      invariant |results| == i
      invariant forall j :: 0 <= j < i ==> check(valid[j]).Ok? && results[j] == check(valid[j]).value
    {
      var email := valid[i];
      var res := check(email);
      if res.Err? {
        assert !AllCheck(check, valid);
        assert FirstFailure(check, valid) == i;
        return Err(CheckFailure(email, res.error));
      }
      results := results + [res.value];
      i := i + 1;
    }
    return Ok(results);
  }

  /** With the real checker, a check fails exactly when the address has no
      domain part, so the sequential path fails exactly on such an address. */
  lemma RealCheckFailsOnBadAddress(svc: Checker.Services, valid: seq<string>)
    ensures AllCheck(CheckWith(svc), valid) <==> forall i :: 0 <= i < |valid| ==> Checker.HasDomain(valid[i])
  {
    forall i | 0 <= i < |valid|
      ensures CheckWith(svc)(valid[i]).Ok? <==> Checker.HasDomain(valid[i])
    {
      assert CheckWith(svc)(valid[i]) == CheckOne(svc, valid[i]);
    }
  }

  // ---------------------------------------------------------------------
  // Concurrently
  // ---------------------------------------------------------------------

  /** Completion order: every check reports exactly once. */
  predicate IsOrder(order: seq<nat>, n: nat) {
    |order| == n
    && (forall k :: 0 <= k < n ==> order[k] < n)
    && (forall a, b :: 0 <= a < b < n ==> order[a] != order[b])
  }

  /** The slot a report fills: the result, or the zero result on error. */
  function Slot(res: Result<CheckResult, string>): CheckResult {
    res.ToOption().GetOr(EmptyResult)
  }

  /** `processEmailsConcurrently`: the checks report in `order`; each result
      goes to its address's slot, and the first failure to report wins. */
  method ProcessConcurrently(check: CheckFn, emails: seq<string>, order: seq<nat>)
    returns (r: Result<seq<CheckResult>, string>)
    requires IsOrder(order, |Valid(emails)|)
    ensures Valid(emails) == [] ==> r == Ok([])
    ensures var valid := Valid(emails);
            && (AllCheck(check, valid) ==>
                  r.Ok? && |r.value| == |valid|
                  && forall i :: 0 <= i < |valid| ==> r.value[i] == check(valid[i]).value)
            && (!AllCheck(check, valid) ==>
                  exists a :: 0 <= a < |valid| && check(valid[order[a]]).Err?
                              && r == Err(CheckFailure(valid[order[a]], check(valid[order[a]]).error))
                              && forall b :: 0 <= b < a ==> check(valid[order[b]]).Ok?)
  {
    var valid := Valid(emails);
    if |valid| == 0 {
      return Ok([]);
    }
    var n := |valid|;
    var results: seq<CheckResult> := seq(n, _ => EmptyResult);
    var firstError: Error := None;
    var first: nat := 0;
    var k := 0;
    while k < n
      invariant 0 <= k <= n
      invariant |results| == n
      invariant forall a :: 0 <= a < k ==> results[order[a]] == Slot(check(valid[order[a]]))
      invariant firstError.None? ==> forall a :: 0 <= a < k ==> check(valid[order[a]]).Ok?
      invariant firstError.Some? ==>
                  first < k && check(valid[order[first]]).Err?
                  && firstError.value == CheckFailure(valid[order[first]], check(valid[order[first]]).error)
                  && forall b :: 0 <= b < first ==> check(valid[order[b]]).Ok?
    {
      var index := order[k];
      var res := check(valid[index]);
      if res.Err? && firstError.None? {
        firstError := Some(CheckFailure(valid[index], res.error));
        first := k;
      }
      results := results[index := Slot(res)];
      k := k + 1;
    }
    if firstError.Some? {
      return Err(firstError.value);
    }
    forall i | 0 <= i < n
      ensures check(valid[i]).Ok? && results[i] == check(valid[i]).value
    {
      var a := OrderCovers(order, n, i);
    }
    return Ok(results);
  }

  /** The numbers below `n`. */
  function Below(n: nat): (r: set<nat>)
    ensures forall i :: i in r <==> 0 <= i < n
    ensures |r| == n
  {
    if n == 0 then {} else
      var r := Below(n - 1) + {n - 1};
      assert n - 1 !in Below(n - 1);
      r
  }

  /** The slots reported by the first `n` positions of the order. */
  function Image(order: seq<nat>, n: nat): (r: set<nat>)
    requires n <= |order|
    ensures forall i :: i in r <==> exists a :: 0 <= a < n && order[a] == i
  {
    set a | 0 <= a < n :: order[a]
  }

  /** Every slot is reported by some position of the completion order. */
  lemma OrderCovers(order: seq<nat>, n: nat, i: nat) returns (a: nat)
    requires IsOrder(order, n) && i < n
    ensures a < n && order[a] == i
  {
    InjectiveImage(order, n);
    assert Image(order, n) <= Below(n);
    SubsetSameSize(Image(order, n), Below(n));
    assert i in Image(order, n);
    a :| 0 <= a < n && order[a] == i;
  }

  /** `n` distinct positions report `n` distinct slots. */
  lemma {:induction false} InjectiveImage(order: seq<nat>, n: nat)
    requires n <= |order|
    requires forall a, b :: 0 <= a < b < n ==> order[a] != order[b]
    ensures |Image(order, n)| == n
    decreases n
  {
    if n > 0 {
      InjectiveImage(order, n - 1);
      assert order[n - 1] !in Image(order, n - 1);
      assert Image(order, n) == Image(order, n - 1) + {order[n - 1]};
    }
  }

  lemma SubsetSameSize(a: set<nat>, b: set<nat>)
    requires a <= b && |a| == |b|
    ensures a == b
  {
    if a != b {
      var x :| x in b && x !in a;
      assert a <= b - {x};
      SubsetSize(a, b - {x});
    }
  }

  lemma {:induction false} SubsetSize(a: set<nat>, b: set<nat>)
    requires a <= b
    ensures |a| <= |b|
    decreases |b|
  {
    if a != {} {
      var x :| x in a;
      SubsetSize(a - {x}, b - {x});
    }
  }
}
