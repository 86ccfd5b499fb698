/** How a call into the database ends. */
module Failures {

  /** It works, or it rejects with or without having taken effect. */
  datatype Fault = Works | Rejects(tookEffect: bool)

  predicate TakesEffect(call: Fault) {
    call.Works? || call.tookEffect
  }
}
