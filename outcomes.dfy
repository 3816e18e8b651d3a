/**
 * The two wrappers the notation layer needs: an optional value, for a regular
 * expression that may find no match, and a result that is either a value or
 * the error the JavaScript code raises when it indexes the absent match.
 */
module Outcomes {

  datatype Option<T> = None | Some(value: T)

  /** The one failure of the notation layer: `null[0]` on an SPN string in
      which the octave pattern finds nothing (a TypeError in JavaScript). */
  datatype Error = NoOctaveMatch

  datatype Result<T> = Ok(value: T) | Err(error: Error)
}
