/** Validation of the requests that may be passed through to Incus. */
module ReadPaths {
  import opened Strings
  import opened PathEscaping

  /** What url.ParseRequestURI yields for an accepted raw path. */
  datatype ParsedUri = ParsedUri(escapedPath: Text, rawQuery: Text, query: map<Text, seq<Text>>)

  /** url.ParseRequestURI: any function, total on raw paths. */
  type UriParser = Text -> Option<ParsedUri>

  predicate IsAllowedMethod(verb: Text) {
    verb == "GET" || verb == "POST" || verb == "PUT" || verb == "PATCH" || verb == "DELETE"
  }

  predicate IsFamily(segment: Text) {
    segment == "instances" || segment == "images" || segment == "operations"
  }

  /** A decoded last segment that names one object. */
  predicate IsObjectName(name: Text) {
    name != "" && name != "." && name != ".." && '/' !in name
  }

  predicate HasAllowedDetailReadShape(escapedPath: Text) {
    var segments := Split(escapedPath, '/');
    && |segments| == 4 && segments[0] == "" && segments[1] == "1.0"
    && IsFamily(segments[2])
    && (var segment := segments[3];
        && IsObjectName(segment)
        && PathUnescape(segment).Some?
        && IsObjectName(PathUnescape(segment).value))
  }

  predicate IsRecursionOneQuery(values: map<Text, seq<Text>>) {
    values.Keys == {"recursion"} && values["recursion"] == ["1"]
  }

  predicate IsAllowedParsedPath(uri: ParsedUri) {
    if uri.escapedPath == "/1.0" || uri.escapedPath == "/1.0/instances" then uri.rawQuery == ""
    else if uri.escapedPath == "/1.0/images" then uri.rawQuery == "" || IsRecursionOneQuery(uri.query)
    else if uri.escapedPath == "/1.0/operations" then uri.rawQuery == ""
    else uri.rawQuery == "" && HasAllowedDetailReadShape(uri.escapedPath)
  }

  predicate IsAllowedIncusReadPath(parse: UriParser, rawPath: Text) {
    parse(rawPath).Some? && IsAllowedParsedPath(parse(rawPath).value)
  }

  const AGENT_PREFIX: Text := "/agent/v1/"

  function ValidateProxyRequest(parse: UriParser, id: Text, verb: Text, path: Text): (error: Option<string>) {
    if id == "" then Some("missing id")
    else if verb == "" then Some("missing method")
    else if !IsAllowedMethod(verb) then Some("unsupported method")
    else if path == "" then Some("missing path")
    else if path == "/agent/v1/state" || AGENT_PREFIX <= path then None
    else if path != "/1.0" && !("/1.0/" <= path) then Some("path outside incus api")
    else if verb != "GET" then Some("incus write method not allowed")
    else if !IsAllowedIncusReadPath(parse, path) then Some("incus read path not allowed")
    else None
  }

  /** The server's own test for requests it answers itself. */
  predicate IsAgentRequest(path: Text) {
    || path == "/agent/v1/state"
    || path == "/agent/v1/"
    || (|path| > |AGENT_PREFIX| && path[..|AGENT_PREFIX|] == AGENT_PREFIX)
  }

  // ---------------------------------------------------------------- agreement

  lemma AgentRequestMeaning(path: Text)
    ensures IsAgentRequest(path) <==> AGENT_PREFIX <= path
  {
    if |path| == |AGENT_PREFIX| && AGENT_PREFIX <= path {
      assert path == "/agent/v1/";
    }
    assert AGENT_PREFIX <= "/agent/v1/state";
  }

  /** A validated request is either the agent's own, or a GET of an allowed Incus path: the two
      tests split every path the same way, so nothing else is ever forwarded. */
  lemma ValidatedIsAgentOrRead(parse: UriParser, id: Text, verb: Text, path: Text)
    ensures ValidateProxyRequest(parse, id, verb, path).None? <==>
            && id != "" && IsAllowedMethod(verb)
            && (|| IsAgentRequest(path)
                || (&& verb == "GET" && (path == "/1.0" || "/1.0/" <= path)
                    && IsAllowedIncusReadPath(parse, path)))
    ensures IsAgentRequest(path) ==> path != "/1.0" && !("/1.0/" <= path)
  {
    AgentRequestMeaning(path);
    assert AGENT_PREFIX <= "/agent/v1/state";
    if AGENT_PREFIX <= path {
      assert path[1] == AGENT_PREFIX[1];
    }
  }

  // ---------------------------------------------------------------- the exact detail shape

  function DetailPath(family: Text, segment: Text): Text {
    "/1.0/" + family + "/" + segment
  }

  function DetailParts(family: Text, segment: Text): seq<Text> {
    ["", "1.0", family, segment]
  }

  lemma DetailPathJoined(family: Text, segment: Text)
    ensures Join(DetailParts(family, segment), '/') == DetailPath(family, segment)
  {
    var parts := DetailParts(family, segment);
    assert parts[1..] == ["1.0", family, segment];
    assert parts[1..][1..] == [family, segment];
    assert parts[1..][1..][1..] == [segment];
    assert Join([segment], '/') == segment;
    assert Join([family, segment], '/') == family + ['/'] + segment;
    assert Join(["1.0", family, segment], '/') == "1.0" + ['/'] + (family + ['/'] + segment);
    assert Join(parts, '/') == [] + ['/'] + ("1.0" + ['/'] + (family + ['/'] + segment));
  }

  /** A detail path without further slashes splits into its four parts. */
  lemma DetailPathSplits(family: Text, segment: Text)
    requires IsFamily(family) && '/' !in segment
    ensures Split(DetailPath(family, segment), '/') == DetailParts(family, segment)
  {
    DetailPathJoined(family, segment);
    SplitJoin(DetailParts(family, segment), '/');
  }

  lemma {:induction false} DotsDecode(segment: Text)
    requires forall i | 0 <= i < |segment| :: segment[i] == '.'
    ensures PathUnescape(segment) == Some(segment)
  {
    if segment != [] {
      DotsDecode(segment[1..]);
      assert segment == [segment[0]] + segment[1..];
    }
  }

  lemma DotSegments(segment: Text)
    requires PathUnescape(segment).Some? && IsObjectName(PathUnescape(segment).value) && '/' !in segment
    ensures IsObjectName(segment)
  {
    if segment == "." || segment == ".." {
      DotsDecode(segment);
    }
  }

  /** Exactly: "/1.0/", one of three families, "/", and a slash-free segment that decodes to a
      nonempty, slash-free name other than "." and "..". */
  lemma DetailShapeMeaning(path: Text)
    ensures HasAllowedDetailReadShape(path) <==>
            exists family: Text, segment: Text ::
              && path == DetailPath(family, segment)
              && IsFamily(family) && '/' !in segment
              && PathUnescape(segment).Some? && IsObjectName(PathUnescape(segment).value)
  {
    if HasAllowedDetailReadShape(path) {
      var s := Split(path, '/');
      JoinSplit(path, '/');
      assert s == DetailParts(s[2], s[3]);
      DetailPathJoined(s[2], s[3]);
    }
    forall family: Text, segment: Text |
      && path == DetailPath(family, segment)
      && IsFamily(family) && '/' !in segment
      && PathUnescape(segment).Some? && IsObjectName(PathUnescape(segment).value)
      ensures HasAllowedDetailReadShape(path)
    {
      DetailPathSplits(family, segment);
      DotSegments(segment);
    }
  }

  /** Every object name, once escaped, is reached by an allowed path, and by one only. */
  lemma EscapedNamesAreAllowed(family: Text, name: Text)
    requires IsFamily(family)
    ensures HasAllowedDetailReadShape(DetailPath(family, PathEscape(name))) <==> IsObjectName(name)
  {
    UnescapeEscape(name);
    EscapeHasNoSlash(name);
    var path := DetailPath(family, PathEscape(name));
    DetailPathSplits(family, PathEscape(name));
    if IsObjectName(name) {
      DetailShapeMeaning(path);
    }
  }

  // ---------------------------------------------------------------- the exact language

  /** A name of one object: what a detail path decodes to. */
  predicate IsPlainName(name: Text) {
    name != [] && name != ['.'] && name != ['.', '.'] && '/' !in name
  }

  /** "/1.0/", instances, images or operations, "/", and a slash-free segment naming one object. */
  ghost predicate NamesObject(path: Text) {
    exists segment: Text ::
      && '/' !in segment && PathUnescape(segment).Some? && IsPlainName(PathUnescape(segment).value)
      && (|| path == "/1.0/instances/" + segment
          || path == "/1.0/images/" + segment
          || path == "/1.0/operations/" + segment)
  }

  predicate IsListPath(path: Text) {
    path == "/1.0" || path == "/1.0/instances" || path == "/1.0/images" || path == "/1.0/operations"
  }

  /** What may be read: the root, the three lists and their objects without a query, and the images
      with the query "recursion=1" and no other. */
  ghost predicate IsReadable(uri: ParsedUri) {
    || (uri.rawQuery == [] && (IsListPath(uri.escapedPath) || NamesObject(uri.escapedPath)))
    || (&& uri.escapedPath == "/1.0/images"
        && (forall key :: key in uri.query <==> key == "recursion")
        && uri.query["recursion"] == ["1"])
  }

  lemma RecursionMeaning(values: map<Text, seq<Text>>)
    ensures IsRecursionOneQuery(values) <==>
              (forall key :: key in values <==> key == "recursion") && values["recursion"] == ["1"]
  {
    if IsRecursionOneQuery(values) {
      assert forall key :: key in values <==> key in values.Keys;
    }
  }

  lemma FamilyMeaning(family: Text)
    ensures IsFamily(family) <==> family == "instances" || family == "images" || family == "operations"
  {
  }

  lemma FamilyPaths(segment: Text)
    ensures DetailPath("instances", segment) == "/1.0/instances/" + segment
    ensures DetailPath("images", segment) == "/1.0/images/" + segment
    ensures DetailPath("operations", segment) == "/1.0/operations/" + segment
  {
    assert "/1.0/" + "instances" + "/" == "/1.0/instances/";
    assert "/1.0/" + "images" + "/" == "/1.0/images/";
    assert "/1.0/" + "operations" + "/" == "/1.0/operations/";
  }

  lemma ObjectMeaning(name: Text)
    ensures IsObjectName(name) <==> IsPlainName(name)
  {
  }

  lemma DetailNamesObject(family: Text, segment: Text)
    requires IsFamily(family) && '/' !in segment
    requires PathUnescape(segment).Some? && IsObjectName(PathUnescape(segment).value)
    ensures NamesObject(DetailPath(family, segment))
  {
    FamilyMeaning(family);
    FamilyPaths(segment);
    ObjectMeaning(PathUnescape(segment).value);
  }

  lemma ObjectHasShape(family: Text, segment: Text)
    requires family == "instances" || family == "images" || family == "operations"
    requires '/' !in segment && PathUnescape(segment).Some? && IsPlainName(PathUnescape(segment).value)
    ensures HasAllowedDetailReadShape(DetailPath(family, segment))
  {
    FamilyMeaning(family);
    ObjectMeaning(PathUnescape(segment).value);
    DetailShapeMeaning(DetailPath(family, segment));
  }

  lemma ShapeNamesObject(path: Text)
    ensures HasAllowedDetailReadShape(path) <==> NamesObject(path)
  {
    DetailShapeMeaning(path);
    forall family: Text, segment: Text |
      && path == DetailPath(family, segment)
      && IsFamily(family) && '/' !in segment
      && PathUnescape(segment).Some? && IsObjectName(PathUnescape(segment).value)
      ensures NamesObject(path)
    {
      DetailNamesObject(family, segment);
    }
    forall segment: Text |
      '/' !in segment && PathUnescape(segment).Some? && IsPlainName(PathUnescape(segment).value)
      ensures HasAllowedDetailReadShape(DetailPath("instances", segment))
      ensures HasAllowedDetailReadShape(DetailPath("images", segment))
      ensures HasAllowedDetailReadShape(DetailPath("operations", segment))
      ensures DetailPath("instances", segment) == "/1.0/instances/" + segment
      ensures DetailPath("images", segment) == "/1.0/images/" + segment
      ensures DetailPath("operations", segment) == "/1.0/operations/" + segment
    {
      ObjectHasShape("instances", segment);
      ObjectHasShape("images", segment);
      ObjectHasShape("operations", segment);
      FamilyPaths(segment);
    }
  }

  /** The exact language of the reads that are passed through. */
  lemma AllowedMeaning(uri: ParsedUri)
    ensures IsAllowedParsedPath(uri) <==> IsReadable(uri)
  {
    ShapeNamesObject(uri.escapedPath);
    RecursionMeaning(uri.query);
  }

  // ---------------------------------------------------------------- why a request is refused

  predicate IsKnownMethod(verb: Text) {
    verb in {"GET", "POST", "PUT", "PATCH", "DELETE"}
  }

  /** The first failing check decides the error. */
  lemma ValidationErrors(parse: UriParser, id: Text, verb: Text, path: Text)
    ensures var error := ValidateProxyRequest(parse, id, verb, path);
            if id == [] then error == Some("missing id")
            else if verb == [] then error == Some("missing method")
            else if !IsKnownMethod(verb) then error == Some("unsupported method")
            else if path == [] then error == Some("missing path")
            else if "/agent/v1/" <= path then error == None
            else if path != "/1.0" && !("/1.0/" <= path) then error == Some("path outside incus api")
            else if verb != "GET" then error == Some("incus write method not allowed")
            else if parse(path).Some? && IsReadable(parse(path).value) then error == None
            else error == Some("incus read path not allowed")
  {
    assert "/agent/v1/" <= "/agent/v1/state";
    MethodMeaning(verb);
    if parse(path).Some? { AllowedMeaning(parse(path).value); }
  }

  lemma MethodMeaning(verb: Text)
    ensures IsAllowedMethod(verb) <==> IsKnownMethod(verb)
  {
  }

  // ---------------------------------------------------------------- validated and sent

  /** What http.NewRequestWithContext keeps of a raw path: a fragment is cut off.  The validator's
      url.ParseRequestURI knows no fragments. */
  function SentPath(rawPath: Text): Text {
    rawPath[..IndexOf(rawPath, '#')]
  }

  /** The path sent is the path validated exactly when it holds no "#". */
  lemma SentAsValidatedIff(rawPath: Text)
    ensures SentPath(rawPath) == rawPath <==> '#' !in rawPath
  {
  }

  /** The raw path of an object called "a#b": its escape is validated as that object, and the path
      sent names the object "a". */
  lemma FragmentExample()
    ensures HasAllowedDetailReadShape(DetailPath("instances", PathEscape("a#b")))
    ensures SentPath(DetailPath("instances", "a#b")) == DetailPath("instances", "a")
  {
    EscapedNamesAreAllowed("instances", "a#b");
    var before := DetailPath("instances", "a");
    assert DetailPath("instances", "a#b") == before + ['#'] + "b";
    IndexOfAfter(before, "b", '#');
  }
}
