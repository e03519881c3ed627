/** The body of `fetchLibCode`'s `try` block (src/background/services/typescript.ts):
    the order in which a package's type declarations are looked up on the registry.
    The network is an input: each request is answered by a `Reply`, so the fallback
    order is a small decision procedure over the replies. */
module DeclarationFetcher {
  import opened Wrappers

  /** The three request shapes, all under the registry host `https://unpkg.com`:
      `<name>/package.json`, `<name>/<typings>` and `@types/<name>/index.d.ts`. */
  datatype Url = PackageJson(name: string) | PackageFile(name: string, path: string) | DefinitelyTyped(name: string)

  /** What `await r.json()` yields: the manifest's `typings` field, or a rejection
      (a malformed body). */
  datatype Json = Malformed | Manifest(typings: Option<string>)

  /** What `r.text()` yields: the body text, or a rejection. */
  datatype Body = Unreadable | Text(text: string)

  /** One `fetch`: it throws (network failure), or it yields a response whose `ok`
      flag and body readers are given. */
  datatype Reply = NetworkError | Response(ok: bool, json: Json, body: Body)

  type Network = Url -> Reply

  /** How the promise returned by `fetchLibCode` settles: with a value (`undefined` is
      `None`) or by rejecting. */
  datatype Settled = Resolved(value: Option<string>) | Rejected

  /** The outcome as the source is written, and the requests issued, in order. */
  datatype Attempt = Attempt(settled: Settled, requests: seq<Url>)

  /** The corrected outcome: the declaration text or `undefined`, and the requests issued. */
  datatype Fetch = Fetch(text: Option<string>, requests: seq<Url>)

  /** JavaScript truthiness of an optional string: present and not empty. */
  predicate Truthy(s: Option<string>) {
    s.Some? && s.value != ""
  }

  /** `return rX.text()` inside the `try`: an OK response's body. The promise is
      returned, not awaited, so the `catch` does not see its rejection. */
  function ReturnText(r: Reply): Settled
    requires r.Response?
  {
    if r.body.Text? then Resolved(Some(r.body.text)) else Rejected
  }

  /** The `@types/<name>/index.d.ts` fallback, after the requests in `sent`. */
  function TryDefinitelyTyped(name: string, net: Network, sent: seq<Url>): Attempt {
    var r2 := net(DefinitelyTyped(name));
    var sent' := sent + [DefinitelyTyped(name)];
    if r2.NetworkError? then Attempt(Resolved(None), sent')
    else if r2.ok then Attempt(ReturnText(r2), sent')
    else Attempt(Resolved(None), sent')
  }

  /** The `try` block of `fetchLibCode` as written: thrown errors (a failed `fetch`,
      a rejected `r0.json()`) are caught and give `undefined`; a rejected `text()` of
      the response being returned is not caught. */
  function FetchDeclarationsAsWritten(name: string, net: Network): (a: Attempt)
    ensures 1 <= |a.requests| <= 3 && a.requests[0] == PackageJson(name)
    ensures a.settled.Resolved? && a.settled.value.Some? ==>
      var r := net(a.requests[|a.requests| - 1]);
      Supplies(r) && a.settled.value.value == r.body.text
    ensures a.settled.Rejected? ==> !Supplies(net(a.requests[|a.requests| - 1]))
  {
    var r0 := net(PackageJson(name));
    var sent := [PackageJson(name)];
    if r0.NetworkError? then Attempt(Resolved(None), sent)
    else if r0.ok && r0.json.Malformed? then Attempt(Resolved(None), sent)
    else if r0.ok && Truthy(r0.json.typings) then
      var r1 := net(PackageFile(name, r0.json.typings.value));
      var sent' := sent + [PackageFile(name, r0.json.typings.value)];
      if r1.NetworkError? then Attempt(Resolved(None), sent')
      else if r1.ok then Attempt(ReturnText(r1), sent')
      else TryDefinitelyTyped(name, net, sent')
    else TryDefinitelyTyped(name, net, sent)
  }

  /** The declared typings file is requested: package.json answered OK, parsed, and
      named a non-empty `typings` path. */
  predicate DeclaresTypings(name: string, net: Network) {
    var r0 := net(PackageJson(name));
    r0.Response? && r0.ok && r0.json.Manifest? && Truthy(r0.json.typings)
  }

  /** The declared `typings` path. */
  function TypingsPath(name: string, net: Network): string
    requires DeclaresTypings(name, net)
  {
    net(PackageJson(name)).json.typings.value
  }

  /** The typings file settles the lookup: its request threw or answered OK. */
  predicate TypingsFileDecides(name: string, net: Network) {
    DeclaresTypings(name, net) &&
    var r1 := net(PackageFile(name, TypingsPath(name, net)));
    r1.NetworkError? || r1.ok
  }

  /** The lookup falls through to `@types`: package.json did not throw and the
      typings file did not settle the lookup. */
  predicate ConsultsDefinitelyTyped(name: string, net: Network) {
    var r0 := net(PackageJson(name));
    !r0.NetworkError? && !(r0.ok && r0.json.Malformed?) && !TypingsFileDecides(name, net)
  }

  /** An answer that supplies text: it did not throw, was OK and its body reads. */
  predicate Supplies(r: Reply) {
    r.Response? && r.ok && r.body.Text?
  }

  /** `fetchLibCode` with every failure caught (what `return await rX.text()` gives):
      a rejected `text()` yields `undefined` like every other failure. */
  function FetchDeclarations(name: string, net: Network): (f: Fetch)
    ensures f.requests ==
      [PackageJson(name)]
      + (if DeclaresTypings(name, net) then [PackageFile(name, TypingsPath(name, net))] else [])
      + (if ConsultsDefinitelyTyped(name, net) then [DefinitelyTyped(name)] else [])
    ensures f.text.Some? ==>
      (Supplies(net(f.requests[|f.requests| - 1])) && f.text.value == net(f.requests[|f.requests| - 1]).body.text)
    ensures f.text ==
      if TypingsFileDecides(name, net) then
        var r1 := net(PackageFile(name, TypingsPath(name, net)));
        if Supplies(r1) then Some(r1.body.text) else None
      else if ConsultsDefinitelyTyped(name, net) && Supplies(net(DefinitelyTyped(name))) then
        Some(net(DefinitelyTyped(name)).body.text)
      else None
  {
    var a := FetchDeclarationsAsWritten(name, net);
    Fetch(if a.settled.Resolved? then a.settled.value else None, a.requests)
  }

  /** As written, the promise rejects only when the response being returned is OK
      and its body cannot be read; otherwise it agrees with the corrected lookup. */
  lemma AsWrittenRejectsOnlyOnUnreadableBody(name: string, net: Network)
    ensures var a := FetchDeclarationsAsWritten(name, net);
      a.settled.Rejected? ==>
        var r := net(a.requests[|a.requests| - 1]);
        r.Response? && r.ok && r.body.Unreadable?
    ensures var a := FetchDeclarationsAsWritten(name, net);
      a.settled.Resolved? ==> a.settled.value == FetchDeclarations(name, net).text
    ensures FetchDeclarationsAsWritten(name, net).requests == FetchDeclarations(name, net).requests
  {
  }

  /** A package without `typings` whose `@types` file answers OK with an unreadable
      body makes the as-written lookup reject instead of yielding `undefined`. */
  lemma AsWrittenRejectionExample(name: string)
    ensures FetchDeclarationsAsWritten(name, u => Response(true, Manifest(None), Unreadable)).settled == Rejected
    ensures FetchDeclarations(name, u => Response(true, Manifest(None), Unreadable)).text == None
  {
  }
}
