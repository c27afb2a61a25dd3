/** The application descriptor handed from the loader to the watchdog, schemes and launchers. */
module Apps {
  import opened Wrappers
  import opened Json

  /**
    One entry of an application's route table: either the text form
    "path => module.function" or an object with its own fields (a missing
    `handler` reads as `undefined`).
   */
  datatype RouteEntry =
    | RouteText(text: string)
    | RouteObject(path: string, handler: Option<string>, httpMethod: Option<string>)

  /**
    An application: its id, the directory its code lives in, an optional
    `main` entry file, an optional route table (present-but-empty still
    counts as declared, as an empty array is truthy) and the package
    configuration the watchdog stores in `app.config`.
   */
  datatype App = App(
    id: string,
    basePath: string,
    main: Option<string>,
    routes: Option<seq<RouteEntry>>,
    config: Json)
}
