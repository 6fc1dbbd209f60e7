/** Logs of calls, newest call outermost. */
module Traces {
  datatype Trace<+T> = Start | Then(before: Trace<T>, last: T)

  ghost function Count<T>(log: Trace<T>, e: T): nat {
    match log
    case Start => 0
    case Then(before, last) => Count(before, e) + if last == e then 1 else 0
  }
}
