/**
 * Logging sinks are replaced by the list of events a call emits: each event
 * is the severity of the logger method called, the logger's context and the
 * message text.
 */
module Logging {
  datatype Severity = Error | Warn | Log | Debug | Verbose

  datatype LogEvent = LogEvent(severity: Severity, context: string, message: string)
}
