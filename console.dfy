/** The editor console: what the code writes with Debug.Log, Debug.LogError, and
    what the editor reports for an exception escaping an `async void` method. */
module Console {

  datatype LogEntry =
    | Info(message: string)       // Debug.Log
    | Error(message: string)      // Debug.LogError
    | Exception(message: string)  // an unhandled exception, reported by the editor
}
