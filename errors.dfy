/**
 * The errors the router records. The Go code formats each one into a message
 * (errors.go); here an error is the value that message is built from.
 */
module Errors {

  datatype Error =
      /** An odd number of key/value arguments (helper.go `isEvenPairs`). */
    | OddPairs(pairs: seq<string>)
      /** A comparator that could not be built, such as an invalid regular expression. */
    | InvalidComparator(source: string)
      /** A method outside the recognised set (validator.go). */
    | BadMethod(name: string)
      /** A route without a path-rank matcher (validator.go). */
    | MissingPath
      /** `Name` on a route that already has a name (route.go). */
    | NameTaken(current: string, attempted: string)
      /** `Path` on a route that already has a path (route.go). */
    | PathTaken(attempted: string)
      /** A validation failure, wrapped when it is recorded on the route (router.go). */
    | BadRoute(cause: Error)
}
