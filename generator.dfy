/**
 * The naming and layout logic of the protoc plugin (`GrpcKotlinGenerator`):
 * which services and methods of a request are picked up from the source
 * locations, what each template context holds (names, call kinds, javadoc
 * blocks), and which files are emitted under which paths.
 *
 * Descriptor messages are plain records. A nullable descriptor field is an
 * `Option`. The proto-to-Kotlin type mapping (`ProtoTypeMap.toJavaTypeName`)
 * and the HTML escaper are function parameters. The rendered template text
 * is left opaque: a file's content is named by the template and the
 * context it is applied to.
 */
module Generator {
  import opened Wrappers
  import opened Text

  // ---------------------------------------------------------------------
  // Constants

  const ServiceNumberOfPaths: nat := 2
  const MethodNumberOfPaths: nat := 4
  const ClassSuffix := "ImplBase"
  const StubSuffix := "StubExt"
  const AdaptersFilePath := "io/rouz/grpc/Adapters.kt"
  const ServiceJavaDocPrefix := "    "
  const MethodJavaDocPrefix := "        "

  /** `FileDescriptorProto.service` in descriptor.proto. */
  const ServiceFieldNumber: int := 6
  /** `ServiceDescriptorProto.method` in descriptor.proto. */
  const MethodFieldNumber: int := 2

  // ---------------------------------------------------------------------
  // Descriptor records

  /** A `SourceCodeInfo.Location`: a path into the file descriptor and the comments attached there. */
  datatype Location = Location(path: seq<int>, leadingComments: string, trailingComments: string)

  /** The `deprecated` option of a service or method. */
  datatype Options = Options(deprecated: bool)

  datatype MethodDescriptor = MethodDescriptor(
    name: string, inputType: string, outputType: string,
    options: Option<Options>, clientStreaming: bool, serverStreaming: bool)

  datatype ServiceDescriptor = ServiceDescriptor(name: string, options: Option<Options>, methods: seq<MethodDescriptor>)

  datatype FileOptions = FileOptions(javaPackage: Option<string>)

  datatype FileDescriptor = FileDescriptor(
    name: string, package: Option<string>, options: Option<FileOptions>,
    services: seq<ServiceDescriptor>, locations: seq<Location>)

  /** A `CodeGeneratorRequest`: the names of the files to generate and every proto file. */
  datatype Request = Request(fileToGenerate: seq<string>, protoFiles: seq<FileDescriptor>)

  // ---------------------------------------------------------------------
  // Template contexts

  /** The template view of one RPC. */
  datatype MethodContext = MethodContext(
    methodName: string, inputType: string, outputType: string, deprecated: bool,
    isManyInput: bool, isManyOutput: bool, grpcCallsMethodName: string,
    methodNumber: int, javaDoc: Option<string>)
  {
    /**
     * `methodNameUpperUnderscore`: the grpc-java method-constant name. Every
     * character is upper-cased, and a '_' follows each lower-case letter
     * that is directly followed by an upper-case one.
     */
    method MethodNameUpperUnderscore() returns (s: string)
      ensures s == UpperUnderscorePrefix(methodName, |methodName|)
    {
      s := "";
      var i := 0;
      while i < |methodName|
        invariant 0 <= i <= |methodName|
        invariant s == UpperUnderscorePrefix(methodName, i)
      {
        var c := methodName[i];
        s := s + [ToUpper(c)];
        if i < |methodName| - 1 && IsLower(c) && IsUpper(methodName[i + 1]) {
          s := s + "_";
        }
        i := i + 1;
      }
    }

    /** `methodNamePascalCase`: the method name with its first character upper-cased. */
    function MethodNamePascalCase(): (r: string)
      requires methodName != ""
      ensures |r| == |methodName| && r[0] == ToUpper(methodName[0]) && r[1..] == methodName[1..]
    {
      [ToUpper(methodName[0])] + methodName[1..]
    }
  }

  /** The template view of one service. */
  datatype Context = Context(
    protoName: string, packageName: string, serviceName: string, deprecated: bool,
    javaDoc: Option<string>, methods: seq<MethodContext>)

  /** The template a generated file is rendered from, with its context. */
  datatype Template = Adapters | ImplBase(service: Context) | StubExtensions(service: Context)

  /** A `CodeGeneratorResponse.File`: a path and the rendered template. */
  datatype OutputFile = OutputFile(name: string, content: Template)

  // ---------------------------------------------------------------------
  // Case conversions

  /** `lowerCaseFirst`: the first character lower-cased, the rest kept. */
  function LowerCaseFirst(s: string): (r: string)
    requires s != ""
    ensures |r| == |s| && r[0] == ToLower(s[0]) && r[1..] == s[1..]
  {
    [ToLower(s[0])] + s[1..]
  }

  /**
   * The Pascal-case name of a lower-case-first method name is the proto
   * method name again exactly when that name does not start with a
   * lower-case letter.
   */
  lemma PascalCaseOfLowerCaseFirst(name: string, mc: MethodContext)
    requires name != "" && mc.methodName == LowerCaseFirst(name)
    ensures mc.MethodNamePascalCase() == name <==> !IsLower(name[0])
  {
    ToUpperToLower(name[0]);
    var r := mc.MethodNamePascalCase();
    if !IsLower(name[0]) {
      assert r == [name[0]] + name[1..];
      assert r == name;
    }
  }

  /** A '_' goes after position `i` of `name`: a lower-case letter followed by an upper-case one. */
  predicate Boundary(name: string, i: nat)
    requires i < |name|
  {
    i < |name| - 1 && IsLower(name[i]) && IsUpper(name[i + 1])
  }

  /** What the loop appends for position `i`. */
  function Segment(name: string, i: nat): string
    requires i < |name|
  {
    if Boundary(name, i) then [ToUpper(name[i]), '_'] else [ToUpper(name[i])]
  }

  /** The upper-underscore rendering of the first `k` characters. */
  function UpperUnderscorePrefix(name: string, k: nat): string
    requires k <= |name|
  {
    if k == 0 then "" else UpperUnderscorePrefix(name, k - 1) + Segment(name, k - 1)
  }

  /** How many boundaries lie before position `k`. */
  function BoundariesBefore(name: string, k: nat): nat
    requires k <= |name|
  {
    if k == 0 then 0 else BoundariesBefore(name, k - 1) + (if Boundary(name, k - 1) then 1 else 0)
  }

  /** The rendering is as long as the name plus its boundaries. */
  lemma {:induction false} UpperUnderscoreLength(name: string, k: nat)
    requires k <= |name|
    ensures |UpperUnderscorePrefix(name, k)| == k + BoundariesBefore(name, k)
  {
    if k > 0 {
      UpperUnderscoreLength(name, k - 1);
    }
  }

  /**
   * The rendering, position by position: character i of the name appears
   * upper-cased at position i plus the boundaries before i, followed by a
   * '_' exactly when i is a boundary. With the length, these segments tile
   * the whole output.
   */
  lemma {:induction false} UpperUnderscoreAt(name: string, k: nat, i: nat)
    requires i < k <= |name|
    ensures i + BoundariesBefore(name, i) + |Segment(name, i)| <= |UpperUnderscorePrefix(name, k)|
    ensures UpperUnderscorePrefix(name, k)[i + BoundariesBefore(name, i)..i + BoundariesBefore(name, i) + |Segment(name, i)|]
      == Segment(name, i)
  {
    if i == k - 1 {
      UpperUnderscoreLast(name, k);
    } else {
      var before := UpperUnderscorePrefix(name, k - 1);
      var last := Segment(name, k - 1);
      var lo := i + BoundariesBefore(name, i);
      var hi := lo + |Segment(name, i)|;
      UpperUnderscoreAt(name, k - 1, i);
      SliceLeft(before, last, lo, hi);
    }
  }

  /** The last segment of the rendering of the first `k` characters closes it. */
  lemma UpperUnderscoreLast(name: string, k: nat)
    requires 0 < k <= |name|
    ensures var lo := k - 1 + BoundariesBefore(name, k - 1);
      lo + |Segment(name, k - 1)| == |UpperUnderscorePrefix(name, k)| &&
      UpperUnderscorePrefix(name, k)[lo..] == Segment(name, k - 1)
  {
    var before := UpperUnderscorePrefix(name, k - 1);
    UpperUnderscoreLength(name, k - 1);
    SliceRight(before, Segment(name, k - 1));
  }

  /** No upper-underscore rendering holds a lower-case letter. */
  lemma {:induction false} UpperUnderscoreHasNoLower(name: string, k: nat)
    requires k <= |name|
    ensures forall j :: 0 <= j < |UpperUnderscorePrefix(name, k)| ==> !IsLower(UpperUnderscorePrefix(name, k)[j])
  {
    if k > 0 {
      UpperUnderscoreHasNoLower(name, k - 1);
    }
  }

  /** A name without lower-case letters has no boundary, so each prefix renders as itself. */
  lemma {:induction false} UpperUnderscoreOfUpper(name: string, k: nat)
    requires k <= |name|
    requires forall j :: 0 <= j < |name| ==> !IsLower(name[j])
    ensures UpperUnderscorePrefix(name, k) == name[..k]
  {
    if k > 0 {
      UpperUnderscoreOfUpper(name, k - 1);
      assert name[..k] == name[..k - 1] + [name[k - 1]];
    }
  }

  /** Rendering twice is rendering once. */
  lemma UpperUnderscoreIdempotent(name: string)
    ensures var once := UpperUnderscorePrefix(name, |name|);
      UpperUnderscorePrefix(once, |once|) == once
  {
    var once := UpperUnderscorePrefix(name, |name|);
    UpperUnderscoreHasNoLower(name, |name|);
    UpperUnderscoreOfUpper(once, |once|);
  }

  /** The rendering ends with the last character upper-cased: no '_' is added at the end. */
  lemma UpperUnderscoreEnd(name: string)
    requires name != ""
    ensures var r := UpperUnderscorePrefix(name, |name|); r != [] && r[|r| - 1] == ToUpper(name[|name| - 1])
  {
  }

  /** grpc-java's constant names for two method names. */
  lemma UpperUnderscoreExamples()
    ensures UpperUnderscorePrefix("sayHello", 8) == "SAY_HELLO"
    ensures UpperUnderscorePrefix("getHTTP", 7) == "GET_HTTP"
  {
    assert UpperUnderscorePrefix("sayHello", 3) == "SAY_";
    assert UpperUnderscorePrefix("getHTTP", 3) == "GET_";
  }

  // ---------------------------------------------------------------------
  // Call kinds

  /** The grpc `ClientCalls` method for the two streaming flags of an RPC. */
  function CallsMethodName(clientStreaming: bool, serverStreaming: bool): string {
    if !clientStreaming && !serverStreaming then "asyncUnaryCall"
    else if !clientStreaming then "asyncServerStreamingCall"
    else if !serverStreaming then "asyncClientStreamingCall"
    else "asyncBidiStreamingCall"
  }

  /** Different flag pairs give different call kinds. */
  lemma CallsMethodNameInjective(c1: bool, s1: bool, c2: bool, s2: bool)
    ensures CallsMethodName(c1, s1) == CallsMethodName(c2, s2) ==> c1 == c2 && s1 == s2
  {
    var names := ["asyncUnaryCall", "asyncServerStreamingCall", "asyncClientStreamingCall", "asyncBidiStreamingCall"];
    assert names[0][5] == 'U' && names[1][5] == 'S' && names[2][5] == 'C' && names[3][5] == 'B';
  }

  /** A flag that is set or an options message that says so. */
  function Deprecated(options: Option<Options>): bool {
    options.Some? && options.value.deprecated
  }

  /** The context `methodContext` builds for an RPC, before its number and javadoc are set. */
  function MethodContextOf(m: MethodDescriptor, typeMap: string -> string): MethodContext
    requires m.name != ""
  {
    MethodContext(LowerCaseFirst(m.name), typeMap(m.inputType), typeMap(m.outputType), Deprecated(m.options),
                  m.clientStreaming, m.serverStreaming, CallsMethodName(m.clientStreaming, m.serverStreaming),
                  0, None)
  }

  /**
   * `methodContext`: the fields are filled in one by one; four independent
   * tests pick the call kind, and exactly one of them fires.
   */
  method NewMethodContext(m: MethodDescriptor, typeMap: string -> string) returns (mc: MethodContext)
    requires m.name != ""
    ensures mc == MethodContextOf(m, typeMap)
    ensures mc.isManyInput == m.clientStreaming && mc.isManyOutput == m.serverStreaming
  {
    var calls: Option<string> := None;
    if !m.clientStreaming && !m.serverStreaming {
      calls := Some("asyncUnaryCall");
    }
    if !m.clientStreaming && m.serverStreaming {
      calls := Some("asyncServerStreamingCall");
    }
    if m.clientStreaming && !m.serverStreaming {
      calls := Some("asyncClientStreamingCall");
    }
    if m.clientStreaming && m.serverStreaming {
      calls := Some("asyncBidiStreamingCall");
    }
    mc := MethodContext(LowerCaseFirst(m.name), typeMap(m.inputType), typeMap(m.outputType), Deprecated(m.options),
                        m.clientStreaming, m.serverStreaming, calls.value, 0, None);
  }

  // ---------------------------------------------------------------------
  // Packages and paths

  /** `extractPackageName`: the `java_package` option when set and not empty, else the proto package ("" when absent). */
  function ExtractPackageName(file: FileDescriptor): string {
    if file.options.Some? && file.options.value.javaPackage.Some? && file.options.value.javaPackage.value != "" then
      file.options.value.javaPackage.value
    else if file.package.Some? then file.package.value
    else ""
  }

  /** The package name is empty exactly when neither the option nor the proto package gives a non-empty one. */
  lemma ExtractPackageNameEmpty(file: FileDescriptor)
    ensures ExtractPackageName(file) == "" <==>
      !(file.options.Some? && file.options.value.javaPackage.Some? && file.options.value.javaPackage.value != "") &&
      !(file.package.Some? && file.package.value != "")
  {
  }

  /** Every occurrence of `a` replaced by `b`. */
  function Replace(s: string, a: char, b: char): (r: string)
    ensures |r| == |s| && forall i :: 0 <= i < |s| ==> r[i] == if s[i] == a then b else s[i]
  {
    seq(|s|, i requires 0 <= i < |s| => if s[i] == a then b else s[i])
  }

  /** Turning dots into slashes is undone by turning slashes into dots, on names without a slash. */
  lemma ReplaceRoundTrip(s: string)
    requires '/' !in s
    ensures Replace(Replace(s, '.', '/'), '/', '.') == s
  {
    var r := Replace(Replace(s, '.', '/'), '/', '.');
    forall i | 0 <= i < |s| ensures r[i] == s[i] {
      assert s[i] != '/';
    }
  }

  /** `absoluteFileName`: the package as a directory, then the file name; just the file name for the empty package. */
  function AbsoluteFileName(packageName: string, fileName: string): (r: string)
    ensures |r| >= |fileName| && r[|r| - |fileName|..] == fileName
    ensures packageName == "" ==> r == fileName
    ensures packageName != "" ==> r == Replace(packageName, '.', '/') + "/" + fileName
  {
    var dir := Replace(packageName, '.', '/');
    if dir == "" then fileName else dir + "/" + fileName
  }

  /** The slash between a directory and a slash-free name is the last one. */
  lemma LastSlash(d: string, f: string)
    requires '/' !in f
    ensures var r := d + "/" + f; r[|d|] == '/' && forall k :: |d| < k < |r| ==> r[k] != '/'
  {
    var r := d + "/" + f;
    forall k | |d| < k < |r| ensures r[k] != '/' {
      assert r[k] == f[k - |d| - 1];
    }
  }

  /** A path splits uniquely at a slash followed only by slash-free text. */
  lemma SplitAtLastSlash(d1: string, f1: string, d2: string, f2: string)
    requires '/' !in f1 && '/' !in f2
    requires d1 + "/" + f1 == d2 + "/" + f2
    ensures d1 == d2 && f1 == f2
  {
    var r := d1 + "/" + f1;
    LastSlash(d1, f1);
    LastSlash(d2, f2);
    assert d1 == r[..|d1|] && d2 == r[..|d2|];
    assert f1 == r[|d1| + 1..] && f2 == r[|d2| + 1..];
  }

  /**
   * For package and file names without a slash, the path determines both:
   * different (package, file) pairs never share a path.
   */
  lemma AbsoluteFileNameInjective(p1: string, f1: string, p2: string, f2: string)
    requires '/' !in p1 && '/' !in f1 && '/' !in p2 && '/' !in f2
    requires AbsoluteFileName(p1, f1) == AbsoluteFileName(p2, f2)
    ensures p1 == p2 && f1 == f2
  {
    if p1 != "" && p2 != "" {
      var d1, d2 := Replace(p1, '.', '/'), Replace(p2, '.', '/');
      SplitAtLastSlash(d1, f1, d2, f2);
      ReplaceRoundTrip(p1);
      ReplaceRoundTrip(p2);
    }
  }

  // ---------------------------------------------------------------------
  // Comments and javadoc

  /** `getComments`: the leading comments, or the trailing ones when there are no leading ones. */
  function GetComments(location: Location): (r: string)
    ensures r == "" <==> location.leadingComments == "" && location.trailingComments == ""
    ensures location.leadingComments != "" ==> r == location.leadingComments
  {
    if location.leadingComments == "" then location.trailingComments else location.leadingComments
  }

  /** The opening of a javadoc block. */
  function Header(prefix: string): string {
    "/**\n" + prefix + " * <pre>\n"
  }

  /** One comment line inside a javadoc block. */
  function LineOf(prefix: string, line: string): string {
    prefix + " * " + line + "\n"
  }

  /** The closing of a javadoc block. */
  function Footer(prefix: string): string {
    prefix + " * <pre>\n" + prefix + " */"
  }

  /** The comment lines of a javadoc block. */
  function Body(prefix: string, lines: seq<string>): string {
    if lines == [] then "" else LineOf(prefix, lines[0]) + Body(prefix, lines[1..])
  }

  /** A javadoc block around the given lines. */
  function JavaDocBlock(prefix: string, lines: seq<string>): string {
    Header(prefix) + Body(prefix, lines) + Footer(prefix)
  }

  /** The javadoc for some comments: none for no comments, else a block around the escaped lines. */
  function JavaDoc(comments: string, prefix: string, escape: string -> string): (r: Option<string>)
    ensures r.None? <==> comments == ""
  {
    if comments == "" then None else Some(JavaDocBlock(prefix, JavaSplit(escape(comments), '\n')))
  }

  /** One more line at the end of the body. */
  lemma {:induction false} BodyAppend(prefix: string, lines: seq<string>, line: string)
    ensures Body(prefix, lines + [line]) == Body(prefix, lines) + LineOf(prefix, line)
  {
    if lines != [] {
      BodyAppend(prefix, lines[1..], line);
      assert (lines + [line])[1..] == lines[1..] + [line];
    }
  }

  /** The `forEach` of `getJavaDoc`: append one decorated line per piece to the builder. */
  method AppendLines(builder: string, prefix: string, lines: seq<string>) returns (out: string)
    ensures out == builder + Body(prefix, lines)
  {
    out := builder;
    var i := 0;
    while i < |lines|
      invariant 0 <= i <= |lines|
      invariant out == builder + Body(prefix, lines[..i])
    {
      BodyAppend(prefix, lines[..i], lines[i]);
      assert lines[..i + 1] == lines[..i] + [lines[i]];
      assert out + LineOf(prefix, lines[i]) == builder + (Body(prefix, lines[..i]) + LineOf(prefix, lines[i]));
      out := out + LineOf(prefix, lines[i]);
      i := i + 1;
    }
    assert lines[..i] == lines;
  }

  /**
   * `getJavaDoc`: for non-empty comments, the header, then one line per
   * piece of the escaped comments split on newlines, then the footer; for
   * empty comments, null.
   */
  method GetJavaDoc(comments: string, prefix: string, escape: string -> string) returns (doc: Option<string>)
    ensures doc == JavaDoc(comments, prefix, escape)
  {
    if comments != "" {
      var builder := Header(prefix);
      builder := AppendLines(builder, prefix, JavaSplit(escape(comments), '\n'));
      builder := builder + Footer(prefix);
      doc := Some(builder);
    } else {
      doc := None;
    }
  }

  /** The lines a javadoc block consists of. */
  function BlockLines(prefix: string, lines: seq<string>): (r: seq<string>)
    ensures |r| == |lines| + 4
  {
    ["/**", prefix + " * <pre>"] + seq(|lines|, i requires 0 <= i < |lines| => prefix + " * " + lines[i]) +
    [prefix + " * <pre>", prefix + " */"]
  }

  /** The body and footer are the decorated lines and the two closing lines joined with newlines. */
  lemma {:induction false} BodyFooterJoined(prefix: string, lines: seq<string>)
    ensures Body(prefix, lines) + Footer(prefix) == JoinOn(BlockLines(prefix, lines)[2..], '\n')
  {
    var tail := BlockLines(prefix, lines)[2..];
    if lines == [] {
      assert tail == [prefix + " * <pre>", prefix + " */"];
    } else {
      BodyFooterJoined(prefix, lines[1..]);
      assert tail[1..] == BlockLines(prefix, lines[1..])[2..];
      assert tail[0] == prefix + " * " + lines[0];
    }
  }

  /**
   * Split on newlines, a javadoc block gives back its lines: the opening marker, the
   * opening "<pre>", each comment line behind the prefix and " * ", the
   * closing "<pre>" and the closing marker, provided the prefix and the
   * lines hold no newline.
   */
  lemma JavaDocBlockLines(prefix: string, lines: seq<string>)
    requires '\n' !in prefix
    requires forall i :: 0 <= i < |lines| ==> '\n' !in lines[i]
    ensures SplitOn(JavaDocBlock(prefix, lines), '\n') == BlockLines(prefix, lines)
  {
    var all := BlockLines(prefix, lines);
    BodyFooterJoined(prefix, lines);
    assert all[1..][1..] == all[2..];
    assert JavaDocBlock(prefix, lines) == JoinOn(all, '\n');
    forall i | 0 <= i < |all| ensures '\n' !in all[i] {
      if 2 <= i < |lines| + 2 {
        assert all[i] == prefix + " * " + lines[i - 2];
      }
    }
    SplitJoin(all, '\n');
  }

  // ---------------------------------------------------------------------
  // Selecting services and methods from source locations

  /** A location naming a service: path `[service field, service index]`. */
  predicate IsServiceLocation(location: Location) {
    |location.path| == ServiceNumberOfPaths && location.path[0] == ServiceFieldNumber
  }

  /** A location naming a method of service `s`: path `[service field, s, method field, method index]`. */
  predicate IsMethodLocation(location: Location, s: int) {
    |location.path| == MethodNumberOfPaths && location.path[0] == ServiceFieldNumber &&
    location.path[1] == s && location.path[2] == MethodFieldNumber
  }

  /** The service locations, in order. */
  function ServiceLocations(locations: seq<Location>): (r: seq<Location>)
    ensures |r| <= |locations|
    ensures forall l :: l in r ==> l in locations && IsServiceLocation(l)
  {
    if locations == [] then []
    else
      var last := locations[|locations| - 1];
      ServiceLocations(locations[..|locations| - 1]) + (if IsServiceLocation(last) then [last] else [])
  }

  /** The method locations of service `s`, in order. */
  function MethodLocations(locations: seq<Location>, s: int): (r: seq<Location>)
    ensures |r| <= |locations|
    ensures forall l :: l in r ==> l in locations && IsMethodLocation(l, s)
  {
    if locations == [] then []
    else
      var last := locations[|locations| - 1];
      MethodLocations(locations[..|locations| - 1], s) + (if IsMethodLocation(last, s) then [last] else [])
  }

  /** Every service location, and nothing else, is selected. */
  lemma {:induction false} ServiceLocationsExact(locations: seq<Location>, l: Location)
    ensures l in ServiceLocations(locations) <==> l in locations && IsServiceLocation(l)
  {
    if locations != [] {
      var front := locations[..|locations| - 1];
      ServiceLocationsExact(front, l);
      assert locations == front + [locations[|locations| - 1]];
    }
  }

  /** Every method location of service `s`, and nothing else, is selected. */
  lemma {:induction false} MethodLocationsExact(locations: seq<Location>, s: int, l: Location)
    ensures l in MethodLocations(locations, s) <==> l in locations && IsMethodLocation(l, s)
  {
    if locations != [] {
      var front := locations[..|locations| - 1];
      MethodLocationsExact(front, s, l);
      assert locations == front + [locations[|locations| - 1]];
    }
  }

  /** Selection keeps location order: what an earlier stretch contributes comes first. */
  lemma {:induction false} ServiceLocationsOrder(a: seq<Location>, b: seq<Location>)
    ensures ServiceLocations(a + b) == ServiceLocations(a) + ServiceLocations(b)
  {
    if b != [] {
      var front := b[..|b| - 1];
      ServiceLocationsOrder(a, front);
      assert (a + b)[..|a + b| - 1] == a + front;
    } else {
      assert a + b == a;
    }
  }

  /** Method selection keeps location order too. */
  lemma {:induction false} MethodLocationsOrder(a: seq<Location>, b: seq<Location>, s: int)
    ensures MethodLocations(a + b, s) == MethodLocations(a, s) + MethodLocations(b, s)
  {
    if b != [] {
      var front := b[..|b| - 1];
      MethodLocationsOrder(a, front, s);
      assert (a + b)[..|a + b| - 1] == a + front;
    } else {
      assert a + b == a;
    }
  }

  /** A method location whose index names a method with a name. */
  predicate MethodIndexOk(service: ServiceDescriptor, location: Location) {
    |location.path| == MethodNumberOfPaths &&
    0 <= location.path[MethodNumberOfPaths - 1] < |service.methods| &&
    service.methods[location.path[MethodNumberOfPaths - 1]].name != ""
  }

  /** A service location whose index names a service, all of whose method locations are in turn valid. */
  predicate ServiceIndexOk(file: FileDescriptor, location: Location) {
    |location.path| == ServiceNumberOfPaths &&
    0 <= location.path[ServiceNumberOfPaths - 1] < |file.services| &&
    forall l :: l in file.locations && IsMethodLocation(l, location.path[ServiceNumberOfPaths - 1]) ==>
      MethodIndexOk(file.services[location.path[ServiceNumberOfPaths - 1]], l)
  }

  /** The indices in the file's locations name existing services and methods, as protoc guarantees. */
  predicate WellIndexed(file: FileDescriptor) {
    forall l :: l in file.locations && IsServiceLocation(l) ==> ServiceIndexOk(file, l)
  }

  /** The method context for one method location: the method it indexes, its number, its javadoc. */
  function MethodContextFor(service: ServiceDescriptor, location: Location,
                            typeMap: string -> string, escape: string -> string): MethodContext
    requires MethodIndexOk(service, location)
  {
    var n := location.path[MethodNumberOfPaths - 1];
    MethodContextOf(service.methods[n], typeMap).(
      methodNumber := n, javaDoc := JavaDoc(GetComments(location), MethodJavaDocPrefix, escape))
  }

  /** The method contexts for a run of method locations, in order. */
  function MethodContexts(service: ServiceDescriptor, locations: seq<Location>,
                          typeMap: string -> string, escape: string -> string): (r: seq<MethodContext>)
    requires forall l :: l in locations ==> MethodIndexOk(service, l)
    ensures |r| == |locations|
    ensures forall i :: 0 <= i < |locations| ==> r[i] == MethodContextFor(service, locations[i], typeMap, escape)
  {
    seq(|locations|, i requires 0 <= i < |locations| => MethodContextFor(service, locations[i], typeMap, escape))
  }

  /** The context for one service location of `file`. */
  function ContextFor(file: FileDescriptor, location: Location,
                      typeMap: string -> string, escape: string -> string): Context
    requires IsServiceLocation(location) && ServiceIndexOk(file, location)
  {
    var s := location.path[ServiceNumberOfPaths - 1];
    var service := file.services[s];
    Context(file.name, ExtractPackageName(file), service.name, Deprecated(service.options),
            JavaDoc(GetComments(location), ServiceJavaDocPrefix, escape),
            MethodContexts(service, MethodLocations(file.locations, s), typeMap, escape))
  }

  /** The contexts for a run of service locations of `file`, in order. */
  function Contexts(file: FileDescriptor, locations: seq<Location>,
                    typeMap: string -> string, escape: string -> string): (r: seq<Context>)
    requires forall l :: l in locations ==> IsServiceLocation(l) && ServiceIndexOk(file, l)
    ensures |r| == |locations|
    ensures forall i :: 0 <= i < |locations| ==> r[i] == ContextFor(file, locations[i], typeMap, escape)
  {
    seq(|locations|, i requires 0 <= i < |locations| => ContextFor(file, locations[i], typeMap, escape))
  }

  /** The contexts of every service of every file, file by file and in location order within a file. */
  function AllContexts(files: seq<FileDescriptor>, typeMap: string -> string, escape: string -> string): seq<Context>
    requires forall i :: 0 <= i < |files| ==> WellIndexed(files[i])
  {
    if files == [] then []
    else
      var file := files[|files| - 1];
      assert WellIndexed(file);
      AllContexts(files[..|files| - 1], typeMap, escape) + Contexts(file, ServiceLocations(file.locations), typeMap, escape)
  }

  /**
   * `context`: the service named by a service location, with one method
   * context per method location of that service, in location order.
   */
  method BuildContext(file: FileDescriptor, location: Location, typeMap: string -> string, escape: string -> string)
    returns (context: Context)
    requires IsServiceLocation(location) && ServiceIndexOk(file, location)
    ensures context == ContextFor(file, location, typeMap, escape)
  {
    var s := location.path[ServiceNumberOfPaths - 1];
    var service := file.services[s];
    var locations := file.locations;
    var methods: seq<MethodContext> := [];
    var i := 0;
    while i < |locations|
      invariant 0 <= i <= |locations|
      invariant forall l :: l in locations[..i] ==> l in locations
      invariant methods == MethodContexts(service, MethodLocations(locations[..i], s), typeMap, escape)
    {
      var l := locations[i];
      assert locations[..i + 1][..i] == locations[..i];
      assert l in file.locations;
      if IsMethodLocation(l, s) {
        var n := l.path[MethodNumberOfPaths - 1];
        var mc := NewMethodContext(service.methods[n], typeMap);
        var doc := GetJavaDoc(GetComments(l), MethodJavaDocPrefix, escape);
        methods := methods + [mc.(methodNumber := n, javaDoc := doc)];
      }
      i := i + 1;
    }
    assert locations[..i] == locations;
    var doc := GetJavaDoc(GetComments(location), ServiceJavaDocPrefix, escape);
    context := Context(file.name, ExtractPackageName(file), service.name, Deprecated(service.options), doc, methods);
  }

  /** Looking at one more location adds its context when it names a service. */
  lemma ContextsStep(file: FileDescriptor, i: nat, typeMap: string -> string, escape: string -> string)
    requires WellIndexed(file) && i < |file.locations|
    ensures var locations := file.locations;
      (forall l :: l in locations[..i] ==> l in locations) &&
      (forall l :: l in locations[..i + 1] ==> l in locations) &&
      Contexts(file, ServiceLocations(locations[..i + 1]), typeMap, escape) ==
      Contexts(file, ServiceLocations(locations[..i]), typeMap, escape) +
      (if IsServiceLocation(locations[i]) then [ContextFor(file, locations[i], typeMap, escape)] else [])
  {
    var locations := file.locations;
    assert locations[..i + 1][..i] == locations[..i];
    assert locations[i] in locations;
  }

  /** The inner loop of `findServices`: one context per service location of `file`, in location order. */
  method FindServicesIn(file: FileDescriptor, typeMap: string -> string, escape: string -> string)
    returns (contexts: seq<Context>)
    requires WellIndexed(file)
    ensures contexts == Contexts(file, ServiceLocations(file.locations), typeMap, escape)
  {
    var locations := file.locations;
    contexts := [];
    var i := 0;
    while i < |locations|
      invariant 0 <= i <= |locations|
      invariant forall l :: l in locations[..i] ==> l in locations
      invariant contexts == Contexts(file, ServiceLocations(locations[..i]), typeMap, escape)
    {
      var l := locations[i];
      ContextsStep(file, i, typeMap, escape);
      assert l in file.locations;
      if IsServiceLocation(l) {
        var context := BuildContext(file, l, typeMap, escape);
        contexts := contexts + [context];
      }
      i := i + 1;
    }
    assert locations[..i] == locations;
  }

  /** `findServices`: one context per service location, file by file, in location order. */
  method FindServices(protos: seq<FileDescriptor>, typeMap: string -> string, escape: string -> string)
    returns (contexts: seq<Context>)
    requires forall i :: 0 <= i < |protos| ==> WellIndexed(protos[i])
    ensures contexts == AllContexts(protos, typeMap, escape)
  {
    contexts := [];
    var f := 0;
    while f < |protos|
      invariant 0 <= f <= |protos|
      invariant contexts == AllContexts(protos[..f], typeMap, escape)
    {
      var more := FindServicesIn(protos[f], typeMap, escape);
      assert protos[..f + 1][..f] == protos[..f];
      contexts := contexts + more;
      f := f + 1;
    }
    assert protos[..f] == protos;
  }

  // ---------------------------------------------------------------------
  // Output files

  /** The proto files the request asks to generate, in request order. */
  function ProtosToGenerate(request: Request): (r: seq<FileDescriptor>)
    ensures forall i :: 0 <= i < |r| ==> r[i] in request.protoFiles && r[i].name in request.fileToGenerate
  {
    Selected(request.protoFiles, request.fileToGenerate)
  }

  /** The files among `files` whose name is in `names`, in order. */
  function Selected(files: seq<FileDescriptor>, names: seq<string>): (r: seq<FileDescriptor>)
    ensures forall i :: 0 <= i < |r| ==> r[i] in files && r[i].name in names
  {
    if files == [] then []
    else
      var last := files[|files| - 1];
      Selected(files[..|files| - 1], names) + (if last.name in names then [last] else [])
  }

  /** Exactly the proto files named in the request are scanned. */
  lemma {:induction false} SelectedExact(files: seq<FileDescriptor>, names: seq<string>, f: FileDescriptor)
    ensures f in Selected(files, names) <==> f in files && f.name in names
  {
    if files != [] {
      var front := files[..|files| - 1];
      SelectedExact(front, names, f);
      assert files == front + [files[|files| - 1]];
    }
  }

  /** The selection keeps request order: selecting from two runs of files selects from each in turn. */
  lemma {:induction false} SelectedOrder(a: seq<FileDescriptor>, b: seq<FileDescriptor>, names: seq<string>)
    ensures Selected(a + b, names) == Selected(a, names) + Selected(b, names)
  {
    if b != [] {
      var front := b[..|b| - 1];
      SelectedOrder(a, front, names);
      assert (a + b)[..|a + b| - 1] == a + front;
    } else {
      assert a + b == a;
    }
  }

  /** `buildUtilFile`: the adapters file at its fixed path. */
  function UtilFile(): OutputFile {
    OutputFile(AdaptersFilePath, Adapters)
  }

  /** `buildServiceBaseImpl`: `<Service>ImplBase.kt` under the package directory. */
  function ServiceBaseImplFile(context: Context): OutputFile {
    OutputFile(AbsoluteFileName(context.packageName, context.serviceName + ClassSuffix + ".kt"), ImplBase(context))
  }

  /** `buildStubExtensions`: `<Service>StubExt.kt` under the package directory. */
  function StubExtensionsFile(context: Context): OutputFile {
    OutputFile(AbsoluteFileName(context.packageName, context.serviceName + StubSuffix + ".kt"), StubExtensions(context))
  }

  /** Positions `1 + 2i` and `2 + 2i` of `files` hold the two files of service `i`. */
  predicate LaidOut(files: seq<OutputFile>, services: seq<Context>, i: nat)
    requires i < |services| && 2 + 2 * i < |files|
  {
    files[1 + 2 * i] == ServiceBaseImplFile(services[i]) && files[2 + 2 * i] == StubExtensionsFile(services[i])
  }

  /**
   * `generateFiles(services)`: the adapters file first, then for each
   * service in order its base implementation followed by its stub
   * extensions.
   */
  method GenerateServiceFiles(services: seq<Context>) returns (files: seq<OutputFile>)
    ensures |files| == 1 + 2 * |services|
    ensures files[0] == UtilFile()
    ensures forall i :: 0 <= i < |services| ==> LaidOut(files, services, i)
  {
    files := [UtilFile()];
    var i := 0;
    while i < |services|
      invariant 0 <= i <= |services|
      invariant |files| == 1 + 2 * i && files[0] == UtilFile()
      invariant forall j :: 0 <= j < i ==> LaidOut(files, services, j)
    {
      var before := files;
      files := files + [ServiceBaseImplFile(services[i]), StubExtensionsFile(services[i])];
      forall j | 0 <= j <= i
        ensures LaidOut(files, services, j)
      {
        if j < i {
          assert LaidOut(before, services, j);
        }
      }
      i := i + 1;
    }
  }

  /**
   * `generateFiles(request)`: the services of the proto files the request
   * names, laid out as `GenerateServiceFiles` says.
   */
  method GenerateFiles(request: Request, typeMap: string -> string, escape: string -> string)
    returns (files: seq<OutputFile>)
    requires forall f :: f in request.protoFiles && f.name in request.fileToGenerate ==> WellIndexed(f)
    ensures var services := AllContexts(ProtosToGenerate(request), typeMap, escape);
      |files| == 1 + 2 * |services| && files[0] == UtilFile() &&
      forall i :: 0 <= i < |services| ==> LaidOut(files, services, i)
  {
    var protos := ProtosToGenerate(request);
    var services := FindServices(protos, typeMap, escape);
    files := GenerateServiceFiles(services);
  }

  /** A generated Kotlin file name ends with the last letter of its suffix and ".kt". */
  lemma KotlinFileEnding(packageName: string, serviceName: string, suffix: string)
    requires suffix != ""
    ensures var n := AbsoluteFileName(packageName, serviceName + suffix + ".kt");
      |n| >= 4 && n[|n| - 4..] == [suffix[|suffix| - 1]] + ".kt"
  {
    var g := serviceName + suffix;
    LastOfConcat(serviceName, suffix);
    LastThenRest(g, ".kt");
    SuffixOfSuffix(AbsoluteFileName(packageName, g + ".kt"), g + ".kt", 4);
  }

  /** The last four characters of a generated file's name, kind by kind: they tell the kinds apart. */
  lemma OutputFileEndings(context: Context)
    ensures var n := UtilFile().name; n[|n| - 4..] == "s.kt"
    ensures var n := ServiceBaseImplFile(context).name; |n| >= 4 && n[|n| - 4..] == "e.kt"
    ensures var n := StubExtensionsFile(context).name; |n| >= 4 && n[|n| - 4..] == "t.kt"
  {
    var adapters := AdaptersFilePath;
    assert adapters[|adapters| - 4..] == "s.kt";
    ImplBaseEnding(context);
    StubExtEnding(context);
  }

  /** The base implementation file of a service ends in "e.kt". */
  lemma ImplBaseEnding(context: Context)
    ensures var n := ServiceBaseImplFile(context).name; |n| >= 4 && n[|n| - 4..] == "e.kt"
  {
    KotlinFileEnding(context.packageName, context.serviceName, ClassSuffix);
    assert ClassSuffix[|ClassSuffix| - 1] == 'e';
  }

  /** The stub extensions file of a service ends in "t.kt". */
  lemma StubExtEnding(context: Context)
    ensures var n := StubExtensionsFile(context).name; |n| >= 4 && n[|n| - 4..] == "t.kt"
  {
    KotlinFileEnding(context.packageName, context.serviceName, StubSuffix);
    assert StubSuffix[|StubSuffix| - 1] == 't';
  }

  /** A service name and suffix without a slash make a file name without a slash. */
  lemma NoSlashInFileName(serviceName: string, suffix: string)
    requires '/' !in serviceName && '/' !in suffix
    ensures '/' !in serviceName + suffix + ".kt"
  {
    var f := serviceName + suffix + ".kt";
    forall i | 0 <= i < |f| ensures f[i] != '/' {
      if i < |serviceName| {
        assert f[i] == serviceName[i];
      } else if i < |serviceName| + |suffix| {
        assert f[i] == suffix[i - |serviceName|];
      }
    }
  }

  /** The layout of `GenerateServiceFiles`: the adapters file, then two files per service. */
  predicate Layout(services: seq<Context>, files: seq<OutputFile>) {
    |files| == 1 + 2 * |services| && files[0] == UtilFile() &&
    forall i :: 0 <= i < |services| ==> LaidOut(files, services, i)
  }

  /** A position after the first is the first or second file of some service `i`. */
  lemma Halve(a: nat) returns (i: nat)
    requires a >= 1
    ensures a == 1 + 2 * i || a == 2 + 2 * i
  {
    i := (a - 1) / 2;
  }

  /** The service whose two files include position `a > 0` of the layout, and whether `a` holds the first of them. */
  lemma FileAt(services: seq<Context>, files: seq<OutputFile>, a: nat) returns (i: nat, base: bool)
    requires Layout(services, files) && 1 <= a < |files|
    ensures i < |services| && (base <==> a == 1 + 2 * i) && (!base ==> a == 2 + 2 * i)
    ensures 2 + 2 * i < |files| && LaidOut(files, services, i)
  {
    i := Halve(a);
    base := a == 1 + 2 * i;
  }

  /** Names whose last four characters differ are different. */
  lemma EndingsDiffer(x: string, y: string)
    requires |x| >= 4 && |y| >= 4 && x[|x| - 4..] != y[|y| - 4..]
    ensures x != y
  {
  }

  /** Two services that differ in package or name get different file names for the same suffix. */
  lemma SameKindDiffer(si: Context, sj: Context, suffix: string)
    requires '/' !in si.packageName && '/' !in si.serviceName && '/' !in sj.packageName && '/' !in sj.serviceName
    requires '/' !in suffix
    requires (si.packageName, si.serviceName) != (sj.packageName, sj.serviceName)
    ensures AbsoluteFileName(si.packageName, si.serviceName + suffix + ".kt") !=
            AbsoluteFileName(sj.packageName, sj.serviceName + suffix + ".kt")
  {
    var fi, fj := si.serviceName + suffix + ".kt", sj.serviceName + suffix + ".kt";
    if AbsoluteFileName(si.packageName, fi) == AbsoluteFileName(sj.packageName, fj) {
      NoSlashInFileName(si.serviceName, suffix);
      NoSlashInFileName(sj.serviceName, suffix);
      AbsoluteFileNameInjective(si.packageName, fi, sj.packageName, fj);
      SameSuffixSameName(si.serviceName, sj.serviceName, suffix);
    }
  }

  /** Two names followed by the same suffix are equal only when the names are. */
  lemma SameSuffixSameName(a: string, b: string, suffix: string)
    requires a + suffix + ".kt" == b + suffix + ".kt"
    ensures a == b
  {
    assert |a| == |b|;
    assert a == (a + suffix + ".kt")[..|a|];
    assert b == (b + suffix + ".kt")[..|b|];
  }

  /** Two positions of the layout hold files with different names, under the conditions of `OutputNamesDistinct`. */
  lemma OutputNamesDiffer(services: seq<Context>, files: seq<OutputFile>, a: nat, b: nat)
    requires forall i :: 0 <= i < |services| ==> '/' !in services[i].packageName && '/' !in services[i].serviceName
    requires forall i, j :: 0 <= i < j < |services| ==>
      (services[i].packageName, services[i].serviceName) != (services[j].packageName, services[j].serviceName)
    requires Layout(services, files) && a < b < |files|
    ensures files[a].name != files[b].name
  {
    var j, baseB := FileAt(services, files, b);
    var sj := services[j];
    OutputFileEndings(sj);
    if a == 0 {
      EndingsDiffer(files[a].name, files[b].name);
    } else {
      var i, baseA := FileAt(services, files, a);
      var si := services[i];
      OutputFileEndings(si);
      if baseA != baseB {
        EndingsDiffer(files[a].name, files[b].name);
      } else {
        assert i < j;
        assert '/' !in ClassSuffix && '/' !in StubSuffix;
        SameKindDiffer(si, sj, if baseA then ClassSuffix else StubSuffix);
      }
    }
  }

  /**
   * No two generated files share a path when no package or service name
   * holds a slash and no two services share both package and name.
   */
  lemma OutputNamesDistinct(services: seq<Context>, files: seq<OutputFile>)
    requires forall i :: 0 <= i < |services| ==> '/' !in services[i].packageName && '/' !in services[i].serviceName
    requires forall i, j :: 0 <= i < j < |services| ==>
      (services[i].packageName, services[i].serviceName) != (services[j].packageName, services[j].serviceName)
    requires Layout(services, files)
    ensures forall a, b :: 0 <= a < b < |files| ==> files[a].name != files[b].name
  {
    forall a: nat, b: nat | a < b < |files| ensures files[a].name != files[b].name {
      OutputNamesDiffer(services, files, a, b);
    }
  }
}
