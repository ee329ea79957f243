/**
 * The two loops that drain the results of Envelope.Send: the command's
 * (cmd/sendmail/main.go), which ends the process at the first severe result,
 * and the SMTP session's (cmd/sendmail/smtpsrv.go), which returns that
 * result's error to the client.
 */
module Delivery {
  import opened Wrappers
  import opened Mail
  import opened Platform

  /** A line written to the log. */
  datatype LogLine = Info(text: string) | Warn(text: string)

  /** How logrus prints an error value: its text, or "<nil>". */
  function ErrorText(e: Option<Error>): string
  {
    if e.Some? then e.value.Text() else "<nil>"
  }

  /** A result that is not severe: above WarnLevel its message is logged, at WarnLevel its error. */
  function Logged(r: Report): LogLine
  {
    if r.level > WarnLevel then Info(r.message) else Warn(ErrorText(r.error))
  }

  /** The log lines of results none of which is severe. */
  function LogOf(results: seq<Report>): (log: seq<LogLine>)
    ensures |log| == |results|
    ensures forall i :: 0 <= i < |results| ==> log[i] == Logged(results[i])
  {
    seq(|results|, i requires 0 <= i < |results| => Logged(results[i]))
  }

  /** The position of the first result below WarnLevel, if there is one. */
  function FirstSevere(results: seq<Report>): (k: Option<nat>)
    ensures k.None? <==> forall i :: 0 <= i < |results| ==> results[i].level >= WarnLevel
    ensures k.Some? ==> k.value < |results| && results[k.value].level < WarnLevel
    ensures k.Some? ==> forall i :: 0 <= i < k.value ==> results[i].level >= WarnLevel
  {
    if results == [] then None
    else if results[0].level < WarnLevel then Some(0)
    else match FirstSevere(results[1..])
      case None => None
      case Some(j) => Some(j + 1)
  }

  /**
   * The command's drain: results at or above WarnLevel are logged and the
   * loop goes on; the first one below it ends the process through log.Fatal
   * with its error.
   */
  method DrainCommand(results: seq<Report>) returns (log: seq<LogLine>, exit: Option<Exit>)
    ensures FirstSevere(results).None? ==> log == LogOf(results) && exit == None
    ensures FirstSevere(results).Some? ==>
              var k := FirstSevere(results).value;
              log == LogOf(results[..k]) && exit == Some(Fatal(ErrorText(results[k].error)))
  {
    log := [];
    for i := 0 to |results|
      invariant forall j :: 0 <= j < i ==> results[j].level >= WarnLevel
      invariant log == LogOf(results[..i])
    {
      var result := results[i];
      if result.level > WarnLevel {
        log := log + [Info(result.message)];
      } else if result.level == WarnLevel {
        log := log + [Warn(ErrorText(result.error))];
      } else {
        return log, Some(Fatal(ErrorText(result.error)));
      }
      assert results[..i + 1] == results[..i] + [result];
    }
    assert results[..|results|] == results;
    return log, None;
  }

  /**
   * The session's drain: like the command's, except that the first result
   * below WarnLevel is logged as a warning and its error is returned.
   */
  method DrainSession(results: seq<Report>) returns (log: seq<LogLine>, err: Option<Error>)
    ensures FirstSevere(results).None? ==> log == LogOf(results) && err == None
    ensures FirstSevere(results).Some? ==>
              var k := FirstSevere(results).value;
              log == LogOf(results[..k]) + [Warn(ErrorText(results[k].error))] && err == results[k].error
  {
    log := [];
    for i := 0 to |results|
      invariant forall j :: 0 <= j < i ==> results[j].level >= WarnLevel
      invariant log == LogOf(results[..i])
    {
      var result := results[i];
      if result.level > WarnLevel {
        log := log + [Info(result.message)];
      } else if result.level == WarnLevel {
        log := log + [Warn(ErrorText(result.error))];
      } else {
        log := log + [Warn(ErrorText(result.error))];
        return log, result.error;
      }
      assert results[..i + 1] == results[..i] + [result];
    }
    assert results[..|results|] == results;
    return log, None;
  }

  /** Results after the first severe one are never looked at. */
  lemma {:induction false} LaterResultsIgnored(results: seq<Report>, more: seq<Report>)
    requires FirstSevere(results).Some?
    ensures FirstSevere(results + more) == FirstSevere(results)
  {
    if results[0].level >= WarnLevel {
      assert (results + more)[1..] == results[1..] + more;
      LaterResultsIgnored(results[1..], more);
    }
  }
}
