/** `getFileData` (index.js:40-53): resolving an inlined path through the build context. */
module Resolver {
  import opened Wrappers

  /**
   * The build context's file index as resolution sees it: the data of each
   * known path. A record whose data is undefined is written with data "",
   * which the source treats the same way (both are falsy).
   */
  type Context = map<string, string>

  /** The record exists and its data is truthy. */
  predicate Resolvable(ctx: Context, path: string)
  {
    path in ctx && ctx[path] != ""
  }

  /** The message of the error raised for an unresolvable path. */
  function NotFoundMessage(path: string): string
  {
    "inline file: " + path + " not found"
  }

  /**
   * The record's data when it exists and is non-empty; otherwise the
   * processing of the current file is aborted with `NotFoundMessage(path)`.
   */
  function GetFileData(ctx: Context, path: string): (r: Result<string>)
    ensures r.Ok? <==> Resolvable(ctx, path)
    ensures r.Ok? ==> r.value == ctx[path] && r.value != ""
    ensures r.Fail? ==> r.error == NotFoundMessage(path)
  {
    if path in ctx && ctx[path] != "" then Ok(ctx[path])
    else Fail(NotFoundMessage(path))
  }

  /** Reads the path back out of a not-found message. */
  function PathOfMessage(msg: string): Option<string>
  {
    if |msg| >= 23 && msg[..13] == "inline file: " && msg[|msg| - 10..] == " not found"
    then Some(msg[13..|msg| - 10])
    else None
  }

  /** A failed resolution names exactly the path that failed. */
  lemma FailureNamesPath(ctx: Context, path: string)
    ensures GetFileData(ctx, path).Fail? ==> PathOfMessage(GetFileData(ctx, path).error) == Some(path)
  {
    var msg := NotFoundMessage(path);
    assert msg[..13] == "inline file: ";
    assert msg[13..|msg| - 10] == path;
    assert msg[|msg| - 10..] == " not found";
  }

  /**
   * The resolver as the source binds it (index.js:185): its receiver is the
   * instance `new` made, which the constructor discards (index.js:187) and
   * which has no `log`. On the failure path `this.log.fatal` (index.js:50)
   * therefore raises a TypeError before the intended error is built; this
   * constant stands for that TypeError's message.
   */
  const MissingLoggerMessage := "TypeError: " + "Cannot read properties of undefined (reading 'fatal')"

  /** `getFileData` as written and bound: the failure carries the TypeError instead. */
  function GetFileDataAsWritten(ctx: Context, path: string): (r: Result<string>)
    ensures r.Ok? <==> Resolvable(ctx, path)
    ensures r.Ok? ==> r.value == ctx[path]
    ensures r.Fail? ==> r.error == MissingLoggerMessage
  {
    if path in ctx && ctx[path] != "" then Ok(ctx[path])
    else Fail(MissingLoggerMessage)
  }

  /** As written, no failure names the missing path, for any context and path. */
  lemma AsWrittenLosesPath(ctx: Context, path: string)
    requires !Resolvable(ctx, path)
    ensures GetFileDataAsWritten(ctx, path).error != GetFileData(ctx, path).error
    ensures PathOfMessage(GetFileDataAsWritten(ctx, path).error) == None
  {
    assert NotFoundMessage(path)[0] == 'i';
    assert MissingLoggerMessage[0] == 'T';
    assert MissingLoggerMessage[..13] != "inline file: ";
  }
}
