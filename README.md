# errbit-php notice pipeline in Dafny

This project models the part of errbit-php that turns a PHP error or
exception into an Errbit (Hoptoad API 2.2) notice and frames it for
transport. Every I/O edge is cut off. The modules follow the source tree:

- `PhpValues` (php_values.dfy): PHP values. This covers null, bool, int, string, ordered arrays with int or
  string keys, object references into an id→object heap, and resources.
  It also covers `empty()`, `isset`, the string cast, loose `==` against an int, and `str_contains`.
- `SimpleXml` (simple_xml.dfy): the element tree the builders write into. It has cursor paths, child
  append and replace, DOM-style attribute setting, and markup with escaping.
- `XmlBuilder` (xml_builder.dfy): src/Errbit/Utils/XmlBuilder.php. The builder is a class over a shared
  `Document`, with a cursor path. It also has `normalizeValue` and the `utf8ForXML` filter, which keeps
  the `Char` production of section 2.2 of the W3C XML 1.0 Recommendation without the supplementary planes.
  `Tag` hands on a builder at the new child, which is what the source's tests expect; `TagAsWritten`
  models line 39 as written, where a blank new child is replaced by a fresh document (see Findings).
  The notice blocks are built on `Tag`.
- `Errors`, `RootErrors`, `Converter` (errors.dfy): the immutable error records of src/Errbit/Errors (Base with its subclasses, and Error, a subclass of BaseError),
  the root-level Errors/Fatal.php copy, and the error-code switch of src/Errbit/Utils/Converter.php.
- `Notice` (notice.dfy): src/Errbit/Exception/Notice.php. It covers:
  - frame and class-name formatting;
  - the request URL guessers;
  - option merging and `params_filters` redaction, as a class whose method overwrites its options map;
  - `filterTrace`;
  - the recursive `var` renderer with its never-cleared static seen-set (the `HashRegistry` class);
  - the `asXml` document, as nested builder methods, each proved against a pure node function.
- `ErrbitClient` (client.dfy): the `Errbit` client class of src/Errbit/Errbit.php. It has the
  configuration map filled with defaults step by step, the observer list, the lazily created writer,
  `shouldNotify`, and a log of the write and observer calls it makes.
- `Writers` (writers.dfy): src/Errbit/Writer. It covers:
  - the connection schemes;
  - the hand-built HTTP/1.1 request (request line and CRLF header framing per sections 2.1 and 3 of
    RFC 9112, and Content-Length per section 8.6 of RFC 9110), over UTF-8 bytes so that `strlen` is the
    byte count;
  - the 7000-byte packets of the asynchronous mode;
  - the Guzzle request composition.

  Sockets and the HTTP client are objects that only log what they are given.
- `LibXmlBuilder`, `LibInfo`, `LibNotice`, `LibErrbit` (lib_xml_builder.dfy, lib_notice.dfy,
  lib_errbit.dfy): the older lib/ copy, as a separate model. It has:
  - a variadic `tag` argument dispatch;
  - the builder that returns the first child of a name;
  - the older notice layout, without a recursion guard or filtering;
  - the five-default `_checkConfig`, and `_buildApiUrl`.

Environment reads are explicit inputs:
- the superglobals are a `Runtime` (server, request, session);
- `gethostname`, `__DIR__` and `preg_quote` are an `Env`;
- `preg_match` and `preg_replace` are a `Regex` of two functions;
- `instanceof` and `is_callable` are predicates;
- `uniqid` is a parameter.

Where the written description of the system and the code differ, the model follows the code:
- the src notice's `server-environment` has no `hostname` element, because that line is commented out;
- `checkConfig` uses `!isset` for most defaults, and `empty` only for port, hostname, project root and
  environment name;
- the Fatal record has one synthetic frame, not an empty trace;
- the Guzzle writer passes its timeout under the misspelt key `connect_timout`, and the model keeps that
  key.

## Model

| member | source | states |
|---|---|---|
| PhpValues.NatToString | src/Errbit/Writer/SocketWriter.php:90 | the decimal text `%d` prints is non-empty and made of digits only |
| PhpValues.NatToStringRoundTrip | src/Errbit/Writer/SocketWriter.php:90 | reading the printed digits back gives the number, so the Content-Length text denotes the length |
| PhpValues.DigitPrefix | src/Errbit/Errbit.php:224 | the leading digits loose `==` reads from a string are a prefix of it and all digits |
| PhpValues.ContainsEmpty | src/Errbit/Errbit.php:169 | `str_contains` with an empty needle holds for every string |
| PhpValues.PortStringIsLooseInt | src/Errbit/Errbit.php:224 | the string port "443" loosely equals 443 and "8080" does not |
| SimpleXml.ReplaceAt | src/Errbit/Utils/XmlBuilder.php:57 | writing a node at a cursor leaves exactly that node there; below the root, the root keeps its name, text, attributes and child count |
| SimpleXml.AppendAt | src/Errbit/Utils/XmlBuilder.php:55-57 | adding children at a cursor makes that node's children its old children followed by the new ones |
| SimpleXml.ReplaceAtKeepsSiblings | src/Errbit/Utils/XmlBuilder.php:55-57 | rewriting one child leaves every sibling untouched |
| SimpleXml.AppendedChild | src/Errbit/Utils/XmlBuilder.php:55-61 | an appended child sits at the old child count and is the element written |
| SimpleXml.AttrValue | src/Errbit/Utils/XmlBuilder.php:169-177 | an attribute is found exactly when some pair carries that name |
| SimpleXml.SetAttr | src/Errbit/Utils/XmlBuilder.php:169-177 | after DOM `setAttribute` the name has the value; an existing attribute is overwritten in place and a new one goes last |
| SimpleXml.SetAttrKeepsOthers | src/Errbit/Utils/XmlBuilder.php:169-177 | setting one attribute leaves every other attribute's value |
| SimpleXml.SetAttrKeepsDistinct | src/Errbit/Utils/XmlBuilder.php:169-177 | setting an attribute never makes a name occur twice |
| SimpleXml.Markup | src/Errbit/Utils/XmlBuilder.php:151 | an element's serialisation opens with `<` and its name and closes with `>` |
| SimpleXml.EscapeText | src/Errbit/Utils/XmlBuilder.php:151 | escaped text contains no `<` or `>` and is no shorter than the text |
| SimpleXml.EscapeAttr | src/Errbit/Utils/XmlBuilder.php:151 | an escaped attribute value contains no `<`, `>` or `"` |
| SimpleXml.TextRoundTrip | src/Errbit/Utils/XmlBuilder.php:151 | unescaping escaped text gives the text back |
| SimpleXml.AttrRoundTrip | src/Errbit/Utils/XmlBuilder.php:151 | unescaping an escaped attribute value gives the value back |
| SimpleXml.Document.constructor | src/Errbit/Utils/XmlBuilder.php:39 | a document holds the root it is given |
| XmlBuilder.NormalizeValueVersusCast | src/Errbit/Utils/XmlBuilder.php:125-141 | null, ints and strings normalise to their string cast, while a bool gives "true"/"false", never its cast |
| XmlBuilder.NormalizeValuePlaceholders | src/Errbit/Utils/XmlBuilder.php:121-139 | arrays, resources and objects without `__toString` become a bracketed placeholder |
| XmlBuilder.TagAttrsDistinct | src/Errbit/Utils/XmlBuilder.php:66-73 | the attributes a tag writes have distinct names |
| XmlBuilder.TagAttrsNames | src/Errbit/Utils/XmlBuilder.php:66-73 | a tag has an attribute of a name exactly when that name is non-empty and is the string key of some entry (non-string or empty keys are skipped) |
| XmlBuilder.TagAttrsValue | src/Errbit/Utils/XmlBuilder.php:66-73 | with distinct keys each valid key's attribute holds its normalised value |
| XmlBuilder.LastNamed | src/Errbit/Utils/XmlBuilder.php:76-84 | the xpath `name[last()]` finds the last child of that name, and none when there is none |
| XmlBuilder.AppendNamed | src/Errbit/Utils/XmlBuilder.php:55-57 | a tag raises the same-name count by one and its child is the new last of that name |
| XmlBuilder.SkipInvalidMeaning | src/Errbit/Utils/XmlBuilder.php:164 | the scanner drops exactly the maximal leading run of non-`Char` code points |
| XmlBuilder.Utf8ForXml | src/Errbit/Utils/XmlBuilder.php:162-167 | the output holds only tab, LF, CR, U+0020–U+D7FF and U+E000–U+FFFD, and is no longer than the input |
| XmlBuilder.Utf8ForXmlKeepsValid | src/Errbit/Utils/XmlBuilder.php:162-167 | a string of valid characters is returned unchanged |
| XmlBuilder.Utf8ForXmlIdempotent | src/Errbit/Utils/XmlBuilder.php:162-167 | filtering twice is filtering once |
| XmlBuilder.Utf8ForXmlValidPrefix | src/Errbit/Utils/XmlBuilder.php:162-167 | a valid prefix passes through and the rest is filtered on its own |
| XmlBuilder.Utf8ForXmlKeepsFront | src/Errbit/Utils/XmlBuilder.php:162-167 | a valid front part of a string is kept as it is |
| XmlBuilder.Utf8ForXmlRun | src/Errbit/Utils/XmlBuilder.php:164 | a maximal run of invalid code points after valid text becomes exactly one space |
| XmlBuilder.Utf8ForXmlBadHead | src/Errbit/Utils/XmlBuilder.php:164 | a maximal run of invalid code points at the start becomes exactly one space |
| XmlBuilder.SetAttributes | src/Errbit/Utils/XmlBuilder.php:66-73 | the attribute loop writes the skipped-and-normalised attribute list |
| XmlBuilder.Builder.constructor | src/Errbit/Utils/XmlBuilder.php:37-40 | a new builder sits at the root of a fresh document whose root is an empty `__ErrbitXMLBuilder__` |
| XmlBuilder.Builder.Over | src/Errbit/Utils/XmlBuilder.php:37-40 | corrected: a builder over a given node shares that document and addresses that node, blank or not |
| XmlBuilder.Builder.OverAsWritten | src/Errbit/Utils/XmlBuilder.php:37-40 | as written: a node with attributes, children or non-blank text is addressed in its document; a blank one (whitespace-only text included) gives a builder at the root of a fresh empty document |
| XmlBuilder.BlankElement | src/Errbit/Utils/XmlBuilder.php:57-73 | an element added with an empty value and no attributes is blank, so it casts to false |
| XmlBuilder.WhitespaceIsBlank | src/Errbit/Utils/XmlBuilder.php:39 | text of spaces, tabs and newlines alone leaves an attribute-less element false; any other character makes it true |
| XmlBuilder.Builder.Tag | src/Errbit/Utils/XmlBuilder.php:53-91 | corrected: the element (normalised value, filtered attributes) becomes the last child of the cursor and nothing else changes; the returned builder addresses the new child, with or without `getLastChild` |
| XmlBuilder.Builder.TagAsWritten | src/Errbit/Utils/XmlBuilder.php:53-91 | as written: the same change to the document; the returned builder addresses the new child iff it has attributes or non-blank text, and is otherwise at a fresh document |
| XmlBuilder.Builder.Attribute | src/Errbit/Utils/XmlBuilder.php:101-110 | an empty name changes nothing; otherwise only the cursor node's attribute is set to the normalised value; the builder itself is returned |
| XmlBuilder.Builder.AsXml | src/Errbit/Utils/XmlBuilder.php:149-153 | the text holds only XML characters and is the serialisation itself whenever that is already valid |
| Errors.KindClassNameSplit | src/Errbit/Errors/Fatal.php:3-5 | every record class lies in namespace `Errbit\Errors` and its short name has no backslash |
| Errors.KindClassNameInjective | src/Errbit/Errors/Fatal.php:3-5 | different record kinds have different class names |
| Errors.NewRecord | src/Errbit/Errors/Base.php:32-71 | `getMessage`, `getLine`, `getFile` and `getTrace` return what the constructor was given |
| Errors.FatalFrameFields | src/Errbit/Errors/Fatal.php:16 | the synthetic frame has the line, the file and function "<unknown>", and no other key |
| Errors.NewFatal | src/Errbit/Errors/Fatal.php:10-18 | a fatal error passes message, line and file through and has exactly one frame, that synthetic one |
| RootErrors.NewFatal | Errors/Fatal.php:16-30 | the root-level Fatal passes message, line and file through and has exactly one frame with line, file and "<unknown>" |
| RootErrors.SameAsSrcFatal | Errors/Fatal.php:16-30 | the root-level Fatal equals the src one for every input |
| Converter.Convert | src/Errbit/Utils/Converter.php:37-58 | as written: a record comes back iff the code is a notice, warning or fatal code, and it is the intended one; every other code (E_USER_ERROR and the default arm) fails with the TypeError of `Error`'s `?Throwable $previous` parameter |
| Converter.ConvertIntended | src/Errbit/Utils/Converter.php:37-58 | corrected: Notice iff E_NOTICE/E_USER_NOTICE, Warning iff E_WARNING/E_USER_WARNING, Fatal iff E_RECOVERABLE_ERROR/E_ERROR/E_CORE_ERROR, Error otherwise; message, line and file pass through; Fatal drops the backtrace for its own frame |
| Converter.ConvertIsOneOfFour | src/Errbit/Utils/Converter.php:37-58 | every code maps to exactly one of the four intended classes |
| Converter.ConvertListedCodes | src/Errbit/Utils/Converter.php:39-56 | the seven codes with their own arm give their record, in the constructors' argument order; E_USER_ERROR and E_DEPRECATED fail with the TypeError |
| Converter.ConvertUserErrorFails | src/Errbit/Utils/Converter.php:53-55 | E_USER_ERROR: no record as written, the Error record as intended |
| Notice.FormatMethod | src/Errbit/Exception/Notice.php:80-87 | a frame's method name always ends in "()" |
| Notice.FormatMethodCases | src/Errbit/Exception/Notice.php:80-87 | class, type and function all non-empty give their concatenation plus "()"; otherwise the function plus "()", or "<unknown>()" without one |
| Notice.FormatMethodInstance | tests/Unit/Errbit/Tests/Exception/NoticeTest.php:152-163 | an instance frame prints "MyClass->myMethod()" |
| Notice.FormatMethodStatic | tests/Unit/Errbit/Tests/Exception/NoticeTest.php:165-176 | a static frame prints "MyClass::staticMethod()" |
| Notice.FormatMethodFunctionOnly | tests/Unit/Errbit/Tests/Exception/NoticeTest.php:178-187 | a function-only frame prints "globalFunction()" |
| Notice.FormatMethodEmptyFrame | tests/Unit/Errbit/Tests/Exception/NoticeTest.php:189-196 | an empty frame prints "<unknown>()" |
| Notice.FormatMethodOfFatalFrame | src/Errbit/Exception/Notice.php:85 | the Fatal frame's method is "<unknown>()" |
| Notice.Explode | src/Errbit/Exception/Notice.php:460-461 | splitting on the backslash gives at least one part and no part contains it |
| Notice.JoinExplode | src/Errbit/Exception/Notice.php:460-461 | joining the parts with the backslash gives the name back |
| Notice.ExplodeLast | src/Errbit/Exception/Notice.php:461 | the last part is what follows the last backslash |
| Notice.ExplodeNoSep | src/Errbit/Exception/Notice.php:460 | a name without a backslash splits into itself alone |
| Notice.ExplodeCountsSeparator | src/Errbit/Exception/Notice.php:460 | a name with a backslash splits into at least two parts |
| Notice.ParseClassname | src/Errbit/Exception/Notice.php:457-463 | the short class name has no backslash, and without a namespace it is the whole name |
| Notice.ParseClassnameRoundTrip | src/Errbit/Exception/Notice.php:457-463 | namespace parts and short name joined with backslashes give the name back |
| Notice.ClassNameOfQualified | src/Errbit/Exception/Notice.php:98-113 | only the segment after the last backslash counts; "Fatal" shows as "Fatal Error" and any other short name as itself |
| Notice.ClassNameOfUnqualified | src/Errbit/Exception/Notice.php:98-113 | an unqualified name shows as itself, except that "Fatal" shows as "Fatal Error" |
| Notice.ClassNameOfKinds | tests/Unit/Errbit/Tests/Exception/NoticeTest.php:77-107 | the records display as Notice, Warning, Error, Fatal Error and Base |
| Notice.ApplyReplacementsConcat | src/Errbit/Exception/Notice.php:179-181 | the filters apply in map order, each to the previous result |
| Notice.TraceFilterCases | src/Errbit/Exception/Notice.php:172-184 | with empty or non-array `backtrace_filters` the text is unchanged; with one filter it is that one replacement |
| Notice.GuessPort | src/Errbit/Exception/Notice.php:445-450 | the ":port" suffix appears exactly when SERVER_PORT is non-empty and neither 80 nor 443 |
| Notice.BuildRequestUrl | src/Errbit/Exception/Notice.php:397-408 | no URL exactly when REQUEST_URI is empty; otherwise protocol "://" host port URI |
| Notice.RequestUrlPort443 | src/Errbit/Exception/Notice.php:414-423 | port 443 alone gives "https://127.0.0.1" and the URI |
| Notice.RequestUrlPort80 | src/Errbit/Exception/Notice.php:445-450 | port 80 alone gives "http://127.0.0.1" and the URI, with no suffix |
| Notice.RequestUrlOtherPort | src/Errbit/Exception/Notice.php:445-450 | any other port gives "http://127.0.0.1:" port and the URI |
| Notice.ForwardedProtocolWins | src/Errbit/Exception/Notice.php:416-417 | a non-empty X-Forwarded-Proto is the protocol whatever the port |
| Notice.MergedOptions | src/Errbit/Exception/Notice.php:44-55 | caller options override the four ambient defaults (url, parameters, session_data, cgi_data), and every other key is the caller's |
| Notice.Patterns | src/Errbit/Exception/Notice.php:380 | the patterns are the filter values, in order |
| Notice.RedactEntry | src/Errbit/Exception/Notice.php:381-385 | redaction never changes a key |
| Notice.RedactEntries | src/Errbit/Exception/Notice.php:380-387 | redaction is entrywise and keeps the length |
| Notice.RedactEntriesMeaning | src/Errbit/Exception/Notice.php:380-387 | a key matched by some pattern gets "[FILTERED]"; an unmatched one keeps its value; keys stay |
| Notice.RedactEntriesIdempotent | src/Errbit/Exception/Notice.php:380-387 | redacting twice is redacting once |
| Notice.RedactEntriesNoPatterns | src/Errbit/Exception/Notice.php:380-387 | with no patterns nothing changes |
| Notice.ParamsFilteredElsewhere | src/Errbit/Exception/Notice.php:373-389 | filtering one area keeps the key set and every other key's value |
| Notice.FilterAreasElsewhere | src/Errbit/Exception/Notice.php:362-364 | filtering the three areas leaves every other option alone |
| Notice.FilteredOptionsMeaning | src/Errbit/Exception/Notice.php:356-389 | same keys; no change without filters; other options unchanged; each array area redacted by the filter patterns |
| Notice.ParamsFilteredOwn | src/Errbit/Exception/Notice.php:373-389 | an array area becomes its redacted entries |
| Notice.FilterAreasOwn | src/Errbit/Exception/Notice.php:362-364 | each of the distinct areas ends redacted, whatever areas are filtered after it |
| Notice.HashRegistry.constructor | src/Errbit/Exception/Notice.php:36 | the seen-set starts empty |
| Notice.UnseenPush | src/Errbit/Exception/Notice.php:137-138 | pushing a hash never raises the number of unexpanded objects, and pushing a new object's id lowers it |
| Notice.KeyAttrs | src/Errbit/Exception/Notice.php:142 | a `var`'s only attribute is `key`, the key as text |
| Notice.VarEntry | src/Errbit/Exception/Notice.php:126-160 | rendering an entry only ever adds to the seen-set |
| Notice.Expand | src/Errbit/Exception/Notice.php:137-147 | an expansion records its hash before the children's |
| Notice.VarsFor | src/Errbit/Exception/Notice.php:126-161 | one `var` per entry, and the seen-set only grows |
| Notice.VarsOf | src/Errbit/Exception/Notice.php:125-162 | a non-array emits nothing and changes nothing |
| Notice.VarsForScalar | src/Errbit/Exception/Notice.php:158-159 | a scalar entry is a leaf holding its normalised value |
| Notice.VarsForSeenObject | src/Errbit/Exception/Notice.php:148-155 | an object already seen is the leaf "*** RECURSION ***" |
| Notice.VarEntryRemembers | src/Errbit/Exception/Notice.php:137-138 | after an object's entry its id is in the seen-set |
| Notice.ExpandedObjectIsLeafLater | src/Errbit/Exception/Notice.php:137-156 | once an object is expanded, every later occurrence, in any call, is a RECURSION leaf |
| Notice.SelfReferenceRendersOnce | tests/Unit/Errbit/Tests/Utils/XmlBuilderTest.php:50-69 | a self-referencing object expands once and its inner reference is a RECURSION leaf |
| Notice.XmlVarsFor | src/Errbit/Exception/Notice.php:123-163 | the builder gains exactly the `var` nodes of the pure renderer, and the seen-set becomes its history |
| Notice.XmlVarsLoop | src/Errbit/Exception/Notice.php:126-161 | the loop appends the renderer's nodes for all entries |
| Notice.XmlVarsStep | src/Errbit/Exception/Notice.php:127-160 | one iteration extends the nodes and history of the first i entries to i+1 |
| Notice.XmlVarEntry | src/Errbit/Exception/Notice.php:127-160 | one entry appends its renderer node and history |
| Notice.XmlVarLeaf | src/Errbit/Exception/Notice.php:159 | a leaf tag appends exactly the leaf |
| Notice.ExpandVar | src/Errbit/Exception/Notice.php:137-147 | an expansion appends one `var` holding the nested vars |
| Notice.FrameLinesIndex | src/Errbit/Exception/Notice.php:256-267 | one `line` per frame, the i-th made from frame i |
| Notice.LineNodeAttrs | src/Errbit/Exception/Notice.php:257-266 | a line's attributes are number, file and method, in that order, normalised |
| Notice.NoticeLayout | src/Errbit/Exception/Notice.php:198-347 | api-key, notifier, error, request iff wanted, user-attributes iff `user` non-empty, server-environment last; version attribute 2.2 |
| Notice.NoticeShape | src/Errbit/Exception/Notice.php:198-347 | the notice's children are the three fixed blocks followed by the optional ones and the environment |
| Notice.NoticeRestParts | src/Errbit/Exception/Notice.php:274-345 | at most one request (iff one of the six options is non-empty), at most one user-attributes (iff `user` is non-empty), then server-environment |
| Notice.BacktraceLayout | src/Errbit/Exception/Notice.php:230-268 | 1 + max(1, frames) lines: the site first, then one blank line for an empty trace |
| Notice.BacktraceFrame | src/Errbit/Exception/Notice.php:256-267 | line i+1 is frame i's line |
| Notice.SiteLineAttrs | src/Errbit/Exception/Notice.php:233-242 | the site line has the error's line, its filtered file or "<unknown>", and method "<unknown>" |
| Notice.FatalBacktrace | src/Errbit/Exception/Notice.php:245-266 | with no backtrace filters a Fatal gives exactly two lines, never the blank one, and the second is its synthetic frame: its line, its file and method "<unknown>()" |
| Notice.ErrorTexts | src/Errbit/Exception/Notice.php:219-227 | with no backtrace filters `class` is the display name, `message` is that name, ": " and the message, then the backtrace; a Fatal shows "Fatal Error" |
| Notice.RequestLayout | src/Errbit/Exception/Notice.php:285-322 | url, component and action always (blank when empty), then params iff parameters are non-empty |
| Notice.RequestVarParts | src/Errbit/Exception/Notice.php:289-320 | params, session and cgi-data each appear iff their option is non-empty, in that order |
| Notice.NoticeExtendsRegistry | src/Errbit/Exception/Notice.php:138 | building a notice only adds to the seen-set |
| Notice.CloseContainer | src/Errbit/Utils/XmlBuilder.php:86-88 | a tag whose callback fills it equals appending the finished container |
| Notice.NotifierBlock | src/Errbit/Exception/Notice.php:204-213 | corrected: the notifier block is name, version and url of this notifier |
| Notice.NotifierBlockAsWritten | src/Errbit/Exception/Notice.php:204-213 | as written: the notice gets an empty `notifier`, and the three leaves go into a fresh document the callback's builder is at |
| Notice.NotifierLostAsWritten | src/Errbit/Exception/Notice.php:204-213 | the empty `notifier` differs from the intended one with three children, and serialises as `<notifier/>` |
| Notice.OptionalVarsBlock | src/Errbit/Exception/Notice.php:325-334 | an optional block is appended, with its vars, iff its value is non-empty |
| Notice.ForException | src/Errbit/Exception/Notice.php:68-71 | a fresh notice of the exception whose options are the caller's over the ambient defaults, then redacted |
| Notice.Notice.constructor | src/Errbit/Exception/Notice.php:44-58 | the options are the caller's over the ambient defaults, then redacted |
| Notice.Notice.FilterData | src/Errbit/Exception/Notice.php:356-365 | the options become their redacted form |
| Notice.Notice.FilterParams | src/Errbit/Exception/Notice.php:373-389 | one area is redacted in place, the rest unchanged |
| Notice.Notice.ApplyPattern | src/Errbit/Exception/Notice.php:381-386 | one pattern's pass redacts every matching key of the area |
| Notice.Notice.FilterTrace | src/Errbit/Exception/Notice.php:172-184 | the loop computes the in-order replacement chain |
| Notice.Notice.EnvBlock | src/Errbit/Exception/Notice.php:336-345 | server-environment with project-root and environment-name |
| Notice.Notice.RequestBlock | src/Errbit/Exception/Notice.php:281-322 | the request element of the pure layout is appended |
| Notice.Notice.RequestFields | src/Errbit/Exception/Notice.php:286-288 | url, component and action are appended |
| Notice.Notice.RequestVars | src/Errbit/Exception/Notice.php:289-320 | the optional params, session and cgi-data blocks are appended |
| Notice.Notice.FrameStep | src/Errbit/Exception/Notice.php:257-266 | one frame appends its line |
| Notice.Notice.FrameLoop | src/Errbit/Exception/Notice.php:256-267 | the loop appends one line per frame, in order |
| Notice.Notice.BacktraceBlock | src/Errbit/Exception/Notice.php:226-270 | the backtrace element of the pure layout is appended |
| Notice.Notice.ErrorBlock | src/Errbit/Exception/Notice.php:215-272 | the error element of the pure layout is appended |
| Notice.Notice.ErrorFields | src/Errbit/Exception/Notice.php:220-225 | the class and message leaves are appended |
| Notice.Notice.NoticeHead | src/Errbit/Exception/Notice.php:203-272 | api-key, notifier and error are appended |
| Notice.Notice.NoticeTail | src/Errbit/Exception/Notice.php:274-345 | the optional blocks and the environment are appended |
| Notice.Notice.NoticeBody | src/Errbit/Exception/Notice.php:202-346 | the notice callback appends exactly the layout's children |
| Notice.Notice.AsXml | src/Errbit/Exception/Notice.php:191-348 | the XML is the serialised pure notice, and the seen-set advances as that notice's history |
| ErrbitClient.UnsetStep | src/Errbit/Errbit.php:239-241 | an isset-guarded default writes its value only when the key is unset |
| ErrbitClient.EmptyStep | src/Errbit/Errbit.php:235-237 | an empty-guarded default writes its value only when the key is empty |
| ErrbitClient.ApplyRulesKeys | src/Errbit/Errbit.php:219-271 | the defaults add exactly their keys |
| ErrbitClient.ApplyRulesOther | src/Errbit/Errbit.php:219-271 | keys no default names keep their value |
| ErrbitClient.ApplyRulesAt | src/Errbit/Errbit.php:219-271 | each key ends with its default, computed from the map at that step, if its guard fired, else with the value it had |
| ErrbitClient.ApplyRulesKeepsSupplied | src/Errbit/Errbit.php:227-271 | a value the user supplied is never overwritten |
| ErrbitClient.ApplyRulesIdempotent | src/Errbit/Errbit.php:209-272 | applying well-behaved distinct defaults twice is applying them once |
| ErrbitClient.CheckedConfig | src/Errbit/Errbit.php:209-272 | fails iff api_key or host is empty, api_key first, before any default is written |
| ErrbitClient.RulesKeys | src/Errbit/Errbit.php:219-271 | the defaults are written for the fourteen keys in the source's order |
| ErrbitClient.RulesDistinct | src/Errbit/Errbit.php:219-271 | no key gets two defaults |
| ErrbitClient.RulesWellBehaved | src/Errbit/Errbit.php:219-271 | every default's value satisfies its own guard, so it writes once |
| ErrbitClient.DefaultedKeys | src/Errbit/Errbit.php:219-271 | the checked map has the user's keys and the fourteen default keys |
| ErrbitClient.DefaultsKeepUserValues | src/Errbit/Errbit.php:227-271 | a user-supplied value survives the check |
| ErrbitClient.PortAndSecure | src/Errbit/Errbit.php:219-225 | empty port: 443 with non-empty secure, else 80; unset secure becomes port == 443; neither gives (80, false); 443 alone gives secure |
| ErrbitClient.DefaultEnvValues | src/Errbit/Errbit.php:227-237 | hostname (gethostname or "<unknown>"), project root and "development" fill empty keys only |
| ErrbitClient.DefaultFilterValues | src/Errbit/Errbit.php:239-253 | params_filters ["/password/"], both timeouts 3, and the project-root backtrace filter, each only when unset |
| ErrbitClient.DefaultBacktraceFilter | src/Errbit/Errbit.php:251-253 | the backtrace filter quotes the final project root |
| ErrbitClient.DefaultWriterValues | src/Errbit/Errbit.php:255-271 | skipped_exceptions [], SocketWriter, "errbitPHP", async false and ignore_user_agent [] when unset |
| ErrbitClient.CheckConfigIdempotent | src/Errbit/Errbit.php:209-272 | checking a checked configuration changes nothing |
| ErrbitClient.EmptyFragmentIgnoresAll | src/Errbit/Errbit.php:167-172 | an empty ignored fragment silences every request that sends a user agent |
| ErrbitClient.ObserverCalls | src/Errbit/Errbit.php:185-187 | one call per observer, in registration order, with the exception and merged config |
| ErrbitClient.NotifyCallsOrder | src/Errbit/Errbit.php:146-149 | one write first, then every observer once, in order, and no second write |
| ErrbitClient.WithPortDefaults | src/Errbit/Errbit.php:219-225 | the port and secure steps give the port defaults |
| ErrbitClient.WithEnvDefaults | src/Errbit/Errbit.php:227-237 | the hostname, root and environment steps give those defaults |
| ErrbitClient.WithFilterDefaults | src/Errbit/Errbit.php:239-253 | the filter and timeout steps give those defaults |
| ErrbitClient.WithWriterDefaults | src/Errbit/Errbit.php:255-271 | the writer, agent and async steps give those defaults |
| ErrbitClient.Client.constructor | src/Errbit/Errbit.php:59-61 | the config is stored unchecked, with no observers, writer or calls |
| ErrbitClient.Client.SetWriter | src/Errbit/Errbit.php:63-66 | sets the writer and nothing else |
| ErrbitClient.Client.OnNotify | src/Errbit/Errbit.php:73-82 | a callable is appended to the observers; a non-callable fails and changes nothing; the client is returned |
| ErrbitClient.Client.CheckConfig | src/Errbit/Errbit.php:209-272 | fails without change on empty api_key or host, else the map becomes its defaulted form |
| ErrbitClient.Client.Configure | src/Errbit/Errbit.php:110-116 | the patch is merged over the config (patch keys win) and then checked |
| ErrbitClient.Client.ShouldNotify | src/Errbit/Errbit.php:160-175 | false for a skipped class, or for a non-empty user agent containing a fragment from the persistent config; true otherwise |
| ErrbitClient.Client.NotifyObservers | src/Errbit/Errbit.php:183-188 | every observer is called once, in order |
| ErrbitClient.Client.GetWriter | src/Errbit/Errbit.php:193-201 | the writer is created from `default_writer` once and reused after |
| ErrbitClient.Client.Notify | src/Errbit/Errbit.php:141-152 | fails without change on empty api_key or host; otherwise the config becomes the checked one, a non-array skipped_exceptions in the merged options fails, and the writer and observers are called, once and in order, iff shouldNotify holds, on the writer already set or else a new instance of the `default_writer` class; otherwise no call is made |
| ErrbitClient.Client.Report | src/Errbit/Errbit.php:144-149 | after the check: merge the options, fail on a non-array skipped_exceptions, and make the write and observer calls iff shouldNotify holds, on the existing writer or else a new instance of the `default_writer` class, which is kept |
| Writers.ConnectionSchemeCases | src/Errbit/Writer/SocketWriter.php:61-73 | udp:// with async whatever secure, else ssl:// with secure, else tcp://, then the host |
| Writers.ConnectionSchemeIgnores | src/Errbit/Writer/AbstractWriter.php:20-31 | with async the secure flag is ignored, and the port never appears |
| Writers.Utf8RoundTrip | src/Errbit/Writer/SocketWriter.php:90 | the byte encoding of the text decodes back to it |
| Writers.Utf8Append | src/Errbit/Writer/SocketWriter.php:80-95 | encoding a concatenation is concatenating the encodings |
| Writers.AsciiEncode | src/Errbit/Writer/SocketWriter.php:85-91 | ASCII header text is one byte per character |
| Writers.JoinFirst | src/Errbit/Writer/SocketWriter.php:82-93 | the joined header lines begin with the first line and a CRLF |
| Writers.JoinLength | src/Errbit/Writer/SocketWriter.php:82-93 | joining keeps every character plus one separator between lines |
| Writers.AsyncSendsBody | src/Errbit/Writer/SocketWriter.php:77-78 | the asynchronous payload is the body unchanged |
| Writers.HeaderSectionStart | src/Errbit/Writer/SocketWriter.php:80-85 | the header section starts with the request line and CRLF |
| Writers.EncodeChar | src/Errbit/Writer/SocketWriter.php:90 | a character takes one to four bytes, and one exactly when it is ASCII |
| Writers.Utf8Encode | src/Errbit/Writer/SocketWriter.php:90 | a string takes between one and four bytes per character, which is what `strlen` counts |
| Writers.DecodeEncodeChar | src/Errbit/Writer/SocketWriter.php:90 | decoding a character's bytes, whatever follows, gives the character and its byte count |
| Writers.SyncStartsWithRequestLine | src/Errbit/Writer/SocketWriter.php:79-96 | the synchronous payload starts with "POST /notifier_api/v2/notices/ HTTP/1.1" CRLF |
| Writers.SyncEndsWithBody | src/Errbit/Writer/SocketWriter.php:79-96 | it is the headers, CRLF CRLF, then exactly the body |
| Writers.ContentLengthIsBodySize | src/Errbit/Writer/SocketWriter.php:90 | the sixth header line is Content-Length with the body's byte length |
| Writers.ContentLengthDelimitsBody | src/Errbit/Writer/SocketWriter.php:79-96 | the declared length is exactly the bytes after the empty line |
| Writers.ChunksFlatten | src/Errbit/Writer/SocketWriter.php:32 | the chunks concatenate back to the payload |
| Writers.ChunksSizes | src/Errbit/Writer/SocketWriter.php:32 | ceil(len/7000) chunks, each at most 7000 bytes and all but the last exactly 7000 |
| Writers.Packets | src/Errbit/Writer/SocketWriter.php:33-42 | one write per chunk |
| Writers.PacketsReassemble | src/Errbit/Writer/SocketWriter.php:30-43 | chunked payloads: at least two chunks, all but the last full; a chunk gives a packet iff it is valid UTF-8, else an empty write; packets share the message id, carry their chunk, and only the final one is `last`; the packets reassemble the payload iff no chunk was lost |
| Writers.Utf8EndsWell | src/Errbit/Writer/SocketWriter.php:41 | valid UTF-8 never ends in a lead byte |
| Writers.FlattenDropped | src/Errbit/Writer/SocketWriter.php:32-42 | dropping non-empty chunks shortens the concatenation, which equals the original iff nothing was dropped |
| Writers.PacketsOfChunks | src/Errbit/Writer/SocketWriter.php:33-42 | for non-empty chunks: a packet with its chunk iff the chunk is valid UTF-8, else an empty write; the data reassembles the chunks iff every chunk gave a packet |
| Writers.PacketLost | src/Errbit/Writer/SocketWriter.php:32-42 | a chunk that ends in a lead byte is written as nothing, and the payload cannot be reassembled |
| Writers.PacketLostExample | src/Errbit/Writer/SocketWriter.php:32-42 | 6999 ASCII bytes and then "é", sent asynchronously: both writes are empty |
| Writers.CharChunksValid | src/Errbit/Writer/SocketWriter.php:32 | corrected: chunks cut between characters are non-empty, at most the chunk size, valid UTF-8, and concatenate to the encoding |
| Writers.CharChunksFlatten | src/Errbit/Writer/SocketWriter.php:32 | corrected: the chunks cut between characters concatenate to the encoding of the text |
| Writers.CharPacketsReassemble | src/Errbit/Writer/SocketWriter.php:32-42 | corrected: every such chunk gives its packet with the message id, `last` only on the final one, and the packets reassemble the payload |
| Writers.UnchunkedIsOneWrite | src/Errbit/Writer/SocketWriter.php:44-46 | otherwise one raw write of the whole payload |
| Writers.Socket.constructor | src/Errbit/Writer/SocketWriter.php:19-25 | a socket opens with nothing sent |
| Writers.Socket.SetTimeout | src/Errbit/Writer/SocketWriter.php:28 | sets the timeout only |
| Writers.Socket.Send | src/Errbit/Writer/SocketWriter.php:42 | appends one fragment to the log |
| Writers.Socket.Close | src/Errbit/Writer/SocketWriter.php:47 | closes, keeping the log |
| Writers.BuildNoticeFor | src/Errbit/Writer/SocketWriter.php:99-102 | the body is the src notice of the exception and options |
| Writers.SocketWriter.BuildPayload | src/Errbit/Writer/SocketWriter.php:51-57 | the payload is addHttpHeadersIfNeeded of the notice bytes |
| Writers.SocketWriter.Write | src/Errbit/Writer/SocketWriter.php:17-49 | dials scheme, port and connect timeout; on a socket sets the write timeout, sends the fragments and closes; without one sends nothing |
| Writers.SocketWriter.Transmit | src/Errbit/Writer/SocketWriter.php:30-46 | the socket receives exactly the payload's fragments |
| Writers.SocketWriter.SendPackets | src/Errbit/Writer/SocketWriter.php:31-43 | the loop sends each chunk's write (its packet, or nothing when `json_encode` fails), in order |
| Writers.GuzzleSchemePort | src/Errbit/Writer/GuzzleWriter.php:29 | ":" port is added iff the port is set; async plays no part |
| Writers.GuzzleSchemeSecure | src/Errbit/Writer/GuzzleWriter.php:24-28 | the scheme is https iff secure |
| Writers.RequestOptionsFields | src/Errbit/Writer/GuzzleWriter.php:67-74 | body, the timeout under `connect_timout` (no `connect_timeout`), and the XML content headers |
| Writers.HttpClient.constructor | src/Errbit/Writer/GuzzleWriter.php:35-39 | the client starts with no requests |
| Writers.HttpClient.Send | src/Errbit/Writer/GuzzleWriter.php:64 | logs one synchronous request |
| Writers.HttpClient.SendAsync | src/Errbit/Writer/GuzzleWriter.php:81 | logs one asynchronous request |
| Writers.GuzzleWriter.constructor | src/Errbit/Writer/GuzzleWriter.php:36-39 | keeps the client |
| Writers.GuzzleWriter.Write | src/Errbit/Writer/GuzzleWriter.php:46-53 | asynchronous request iff async, else synchronous, POSTing the notice to scheme + notices path |
| Writers.GuzzleWriter.SynchronousWrite | src/Errbit/Writer/GuzzleWriter.php:59-76 | one synchronous POST with the notice and options |
| Writers.GuzzleWriter.AsyncWrite | src/Errbit/Writer/GuzzleWriter.php:78-94 | one asynchronous POST with the notice and options |
| LibXmlBuilder.LastInRole | lib/Errbit/XmlBuilder.php:16-24 | the last argument of a role, and none after it |
| LibXmlBuilder.ParseArgsLastValue | lib/Errbit/XmlBuilder.php:16-24 | the value is the last string argument, "" without one (so `tag('n', 42)` has value "") |
| LibXmlBuilder.ParseArgsLastAttributes | lib/Errbit/XmlBuilder.php:16-24 | the attributes are the last non-callable array |
| LibXmlBuilder.ParseArgsLastCallback | lib/Errbit/XmlBuilder.php:16-24 | the callback is the last callable non-string |
| LibXmlBuilder.ReadArgs | lib/Errbit/XmlBuilder.php:13-24 | the loop computes the dispatch |
| LibXmlBuilder.LibAttrsDistinct | lib/Errbit/XmlBuilder.php:28-30 | the written attributes have distinct names |
| LibXmlBuilder.LibAttrsNames | lib/Errbit/XmlBuilder.php:28-30 | an attribute exists iff some non-empty string key names it |
| LibXmlBuilder.LibAttrsLastValue | lib/Errbit/XmlBuilder.php:28-30 | an attribute holds its last entry's string value |
| LibXmlBuilder.SetAttributes | lib/Errbit/XmlBuilder.php:28-30 | the loop writes those attributes |
| LibXmlBuilder.FirstNamed | lib/Errbit/XmlBuilder.php:33 | the index of the first child of a name, or the count when there is none |
| LibXmlBuilder.FirstNamedAppend | lib/Errbit/XmlBuilder.php:32-33 | a new same-name child does not move the first one |
| LibXmlBuilder.LibBuilder.constructor | lib/Errbit/XmlBuilder.php:4-6 | a fresh document with an empty root |
| LibXmlBuilder.LibBuilder.Over | lib/Errbit/XmlBuilder.php:4-6 | a builder over a given node |
| LibXmlBuilder.LibBuilder.Tag | lib/Errbit/XmlBuilder.php:8-40 | appends the dispatched element; returns the callback; the new builder addresses the first child of that name, the new one only if it is the first |
| LibXmlBuilder.LibBuilder.Attribute | lib/Errbit/XmlBuilder.php:42-45 | an empty name changes nothing; otherwise only the current node's attribute is set to the value's string; the builder is returned |
| LibXmlBuilder.SecondTagReturnsFirst | lib/Errbit/XmlBuilder.php:32-33 | a second same-name tag's builder still addresses the first |
| LibNotice.LibMergedOptions | lib/Errbit/Notice.php:26-36 | caller options over the defaults url, parameters, session and cgi_data |
| LibNotice.RuntimeSessionUnused | lib/Errbit/Notice.php:32 | `session_data` comes from the caller alone |
| LibNotice.SrcSessionUsed | src/Errbit/Exception/Notice.php:51 | the src notice does take the ambient session as `session_data` |
| LibNotice.Lines | lib/Errbit/Notice.php:111-122 | the backtrace has exactly one line per frame |
| LibNotice.VarsInto | lib/Errbit/Notice.php:74-84 | one `var` per entry added, the node itself unchanged |
| LibNotice.EntryInto | lib/Errbit/Notice.php:75-83 | one entry adds one `var` |
| LibNotice.OnlyFirstVarNests | lib/Errbit/Notice.php:74-84 | in a fresh element every child except the first `var` stays childless, so only that `var` can receive nested values |
| LibNotice.XmlVarsFor | lib/Errbit/Notice.php:74-84 | the cursor node becomes the pure rendering |
| LibNotice.XmlVarEntry | lib/Errbit/Notice.php:75-83 | one entry's tag and callback |
| LibNotice.ClosureOnly | lib/Errbit/XmlBuilder.php:16-24 | a closure argument alone gives an empty element and that callback |
| LibNotice.CloseContainer | lib/Errbit/XmlBuilder.php:35-37 | a tag whose callback fills it equals appending the finished container |
| LibNotice.NotifierBlock | lib/Errbit/Notice.php:102-106 | the notifier block of the lib constants |
| LibNotice.BacktraceLoop | lib/Errbit/Notice.php:112-121 | one line per frame, in order |
| LibNotice.ErrorBlock | lib/Errbit/Notice.php:108-123 | the error element is appended |
| LibNotice.ErrorHeadBlock | lib/Errbit/Notice.php:109-110 | class and message leaves |
| LibNotice.BacktraceBlock | lib/Errbit/Notice.php:111-122 | the backtrace element with its lines |
| LibNotice.VarsBlock | lib/Errbit/Notice.php:135-151 | an optional vars block appears iff its option is non-empty |
| LibNotice.RequestHeadsBlock | lib/Errbit/Notice.php:132-134 | url, component and action |
| LibNotice.RequestVarsBlock | lib/Errbit/Notice.php:135-151 | params, session and cgi-data as present |
| LibNotice.RequestBlock | lib/Errbit/Notice.php:131-152 | the request element is appended |
| LibNotice.EnvBlock | lib/Errbit/Notice.php:155-159 | project-root, environment-name and hostname |
| LibNotice.NoticeHeadBlock | lib/Errbit/Notice.php:101-123 | api-key, notifier and error |
| LibNotice.NoticeTailBlock | lib/Errbit/Notice.php:125-159 | the optional request then the environment |
| LibNotice.NoticeBody | lib/Errbit/Notice.php:100-160 | the notice callback builds exactly the layout's children |
| LibNotice.ErrbitNotice.constructor | lib/Errbit/Notice.php:26-39 | the options are the merged ones, with `_filterData` changing nothing |
| LibNotice.ErrbitNotice.ForException | lib/Errbit/Notice.php:44-46 | a new notice |
| LibNotice.ErrbitNotice.AsXml | lib/Errbit/Notice.php:92-162 | the XML is the serialised pure notice, unfiltered |
| LibNotice.LeafCases | lib/Errbit/XmlBuilder.php:16-26 | a string value is the text; a non-callable array gives attributes; anything else an empty element |
| LibNotice.LineLayout | lib/Errbit/Notice.php:113-120 | number (default 0), file (default "<unknown>") and method |
| LibNotice.LinesOnePerFrame | lib/Errbit/Notice.php:112-121 | line i is frame i's |
| LibNotice.ErrorLayout | lib/Errbit/Notice.php:108-123 | class is the full class name, message the raw message, no site line; an empty trace gives an empty backtrace |
| LibNotice.NoticeVersion | lib/Errbit/Notice.php:97-99 | the notice element has no text and the single attribute version 2.2 |
| LibNotice.NoticeLayout | lib/Errbit/Notice.php:97-160 | api-key, notifier, error, request iff any of six options, server-environment |
| LibNotice.RequestLayout | lib/Errbit/Notice.php:131-152 | url, component, action, then params, session and cgi-data each iff non-empty |
| LibNotice.SessionNeverFromRuntime | lib/Errbit/Notice.php:141-145 | without a caller `session_data` there is no session element, whatever the runtime session |
| LibNotice.TwoArraysShareFirstVar | lib/Errbit/XmlBuilder.php:32-33 | two array-valued parameters give two `var` children; both nested values land in the first one and the second stays empty |
| LibErrbit.LibRulesArePrefix | lib/Errbit.php:73-91 | for one shared environment, lib's five defaults are the first five of src |
| LibErrbit.LibCheckedConfig | lib/Errbit.php:64-92 | fails iff api_key or host is empty, api_key first |
| LibErrbit.LibDefaultValues | lib/Errbit.php:73-91 | port 443/80, secure = port == 443, hostname, project root and "development" when empty |
| LibErrbit.LibOtherKeys | lib/Errbit.php:73-91 | every other key is unchanged |
| LibErrbit.LibCheckIdempotent | lib/Errbit.php:64-92 | checking twice is checking once |
| LibErrbit.ApiUrlDefaults | lib/Errbit.php:94-105 | no port or secure gives http on 80; secure alone https on 443; port 443 alone https |
| LibErrbit.BuildNoticeFor | lib/Errbit.php:107-109 | the lib notice of the merged options |
| LibErrbit.Errbit.constructor | lib/Errbit.php:25-27 | stores the config unchecked |
| LibErrbit.Errbit.Configure | lib/Errbit.php:29-33 | replaces the whole config, then checks |
| LibErrbit.Errbit.Start | lib/Errbit.php:35-39 | the check alone |
| LibErrbit.Errbit.CheckConfig | lib/Errbit.php:64-92 | the config becomes the checked one, or stays on failure |
| LibErrbit.Errbit.BuildApiUrl | lib/Errbit.php:94-105 | scheme, host, ":" port and the notices path of the checked config |
| LibErrbit.Errbit.Notify | lib/Errbit.php:41-60 | the POST of the notice for the pre-check config plus options to the API URL, with the XML headers |

## Left out

- The error, exception and shutdown handlers and their registration (src/Errbit/Handlers, lib/Errbit/ErrorHandlers.php, `start`'s `ErrorHandlers::register`) are not part of this model. `Client.Start` is not modelled; its check is `Client.CheckConfig`.
- The singleton accessors `instance()` of both clients are process-global state with no logic, and they are not modelled.
- Network I/O is not modelled: `fsockopen`, `stream_set_timeout`, `fwrite`, `fclose`, Guzzle promises, and curl with its `var_dump` of the response. Sockets and the HTTP client are logs, and `LibErrbit.Errbit.Notify` returns the request curl would send.
- Packets are records, not their `json_encode` text. Of `json_encode`'s failures, only the one on a chunk that is not valid UTF-8 is modelled.
- `preg_match`, `preg_replace` and `preg_quote` are parameters; their failure modes are not modelled, nor are the array forms of filters and replacements.
- `gethostname`, `__DIR__`, `uniqid`, `is_callable`, `instanceof` and the superglobals are parameters.
- `new $config['default_writer']` is a writer reference tagged with the class name, not an instantiation.
- SimpleXML serialisation is modelled by a simple markup function with escaping of `<`, `>`, `&` and `"`. libxml's exact output, its handling of `&` in lib's direct assignment, and a failed `asXML()` are not modelled.
- Floats are not modelled, nor numeric strings with whitespace. TypeErrors from scalar parameter types are not modelled; the one class-type TypeError modelled is `Converter.Convert`'s.
- Writers.GuzzleWriter.Write, SynchronousWrite and AsyncWrite always send their request. As written, `buildNoticeFor` of src/Errbit/Writer/AbstractWriter.php:39 takes an `ErrorInterface`, which no class implements, so PHP raises a TypeError before any request; the model states what the writer does once a notice is built.
- ErrbitClient.Client.Notify accepts any `Record`. As written, `notify(\Throwable ...)` refuses the `Errbit\Errors` records, whose base class implements nothing; a `Record` stands for the thrown exception, and the records reach `notify` only in this model.
- An object's properties are a free list in `ObjInfo.props`. It stands for the `(array)` cast, which holds every property, public, protected and private, under PHP's keys `name`, `"\0*\0name"` and `"\0Class\0name"`; how PHP orders and mangles them is not modelled.
- `spl_object_hash` reuse after an object is freed is not modelled: an object's identity is its heap id.
- Notice.VarEntry tests whether an object was seen by identity. The source's `in_array` (src/Errbit/Exception/Notice.php:137) compares the hash strings loosely. On PHP 8.1 and later a hash is the handle in 16 hex digits followed by 16 zeros. So two handles whose hex reads as a numeric string of equal value collide: handles 0xe and 0xe0 both read as zero, and 0x1e5 and 0x2e3 both overflow to infinity. As written, the second object of such a pair renders as `*** RECURSION ***`; the model expands it.
- Redaction writes by position, which is the same as writing by key because PHP array keys are distinct.
- Tag (LibXmlBuilder.LibBuilder.Tag) skips integer and empty keys of the attributes array. As written, lib/Errbit/XmlBuilder.php:29 writes `$element[$attr] = $v` for them as well. SimpleXML reads an integer key as addressing the element itself (key 0 replaces its text), and it refuses an empty attribute name. The notice's own attribute arrays have only non-empty string keys, so the notice is unaffected.
- Callbacks found in user values are not run in the lib notice, because it does not nest builders for them.
- lib's `_filterData` is a no-op, and the model has no step for it.
- src/Errbit/Errors/Error.php and BaseError.php are not part of this model beyond the TypeError `Converter.Convert` meets in Error's constructor; neither are the interfaces without logic.
- Converter.Convert: its Notice and Warning arms assume that `Errbit\Errors\Notice` and `Warning` inherit Base's four-argument constructor `($message, $line, $file, $trace)`. Their source files are not part of this model, and the tests disagree about them. tests/Unit/Errbit/Tests/Utils/ConverterTest.php:33 and :70 build them with four arguments, and tests/Unit/Errbit/Tests/Handlers/ErrorHandlersTest.php:72 and :135-136 expect a converted notice to be a `Notice`. tests/Unit/Errbit/Tests/Errors/BaseErrorTest.php:45 and :54 build them with Error's five-argument shape `($message, $line, $previous, $file, $backtrace)`. Under that shape, src/Errbit/Utils/Converter.php:42 and :46 would raise the same TypeError as line 55, and only the Fatal arm would give a record.
- ConvertListedCodes (Converter.ConvertListedCodes): its four notice and warning lines rest on the same four-argument assumption as `Converter.Convert`.
- ConvertIntended (Converter.ConvertIntended): its Error record is the one tests/Unit/Errbit/Tests/Utils/ConverterTest.php:60-63 expects. Error's own constructor (src/Errbit/Errors/Error.php:17) passes five arguments to BaseError's four-parameter constructor (src/Errbit/Errors/BaseError.php:18), and that call is not modelled.
- XmlBuilder.Builder.Tag is the corrected `tag`: as written, a container opened with no attributes and blank text (notifier, error, backtrace, request, params, session, cgi-data, user-attributes, server-environment) stays empty, and what its callback adds is lost. `TagAsWritten` and `NotifierBlockAsWritten` model that; the notice blocks below state the corrected document.
- NotifierBlock (Notice.NotifierBlock), like OptionalVarsBlock, EnvBlock, RequestBlock, BacktraceBlock, ErrorBlock and Notice.Notice.AsXml: states the notice the corrected `Tag` builds, not the one with empty containers (see Findings).
- OptionalVarsBlock (Notice.OptionalVarsBlock): states the corrected `params`, `session`, `cgi-data` or `user-attributes` element; as written it stays empty.
- CloseContainer (Notice.CloseContainer): the filled container is the corrected `Tag`'s; as written, a blank container's callback writes elsewhere.
- BacktraceLayout (Notice.BacktraceLayout): the lines are those the corrected builder puts into `backtrace`; as written `backtrace` stays empty.
- BacktraceFrame (Notice.BacktraceFrame): the frame's `line` is where the corrected builder puts it; as written it lands in a detached document.
- FatalBacktrace (Notice.FatalBacktrace): the two lines are those of the corrected builder; as written they land in a detached document.
- ErrorTexts (Notice.ErrorTexts): `class` and `message` are children of the corrected `error`; as written `error` stays empty.
- RequestLayout (Notice.RequestLayout): the children are those of the corrected `request`; as written `request` stays empty.
- RequestVarParts (Notice.RequestVarParts): the var blocks are those of the corrected `request`; as written they are lost.
- RequestVars (Notice.Notice.RequestVars): `params`, `session` and `cgi-data` as the corrected builder nests them; as written they are lost.
- NoticeHead (Notice.Notice.NoticeHead): the corrected `notifier` and `error`; as written both are empty elements.
- NoticeTail (Notice.Notice.NoticeTail): the corrected `request` and `server-environment`; as written both are empty elements.
- NoticeBody (Notice.Notice.NoticeBody): the notice the corrected builder makes; as written only `api-key` keeps content, beside empty containers.
- NoticeLayout (Notice.NoticeLayout): `children[1]` is the corrected `NotifierNode` and `children[2]` the corrected `ErrorNode`; as written both are empty elements.
- NoticeShape (Notice.NoticeShape): the fixed blocks are the corrected `notifier` and `error`; as written both are empty elements.
- Write (Writers.SocketWriter.Write), like Writers.BuildNoticeFor and Writers.SocketWriter.BuildPayload: the notice document is the corrected one; the packets it sends are as written, empty writes included.
- Notice.ClassNameOfKinds: the test file's own classes are not modelled, only the five record kinds.
- lib's `formatMethod` is the same three-way rule as src's, so it is `Notice.FormatMethod` and has no copy.

## Findings

The corrected `Tag` and `ConvertIntended` are what the rest of the model uses. The socket writer is
modelled as written, since nothing downstream of its packets is modelled; `CharChunks` is the
corrected cut.

| source | as written | input that shows it | evidently intended | confidence | as-written member | corrected member |
|---|---|---|---|---|---|---|
| lib/Errbit/Notice.php:32 | the ambient `$_SESSION` default is stored under `session`, but the request block reads only `session_data` (lib/Errbit/Notice.php:141-145) | a runtime session `['user' => 1]` and no caller `session_data`: the notice has no session element | the ambient session is stored as `session_data`, as the src notice does | high, not executed | LibNotice.SessionNeverFromRuntime | LibNotice.SrcSessionUsed |
| lib/Errbit/XmlBuilder.php:32-33 | `tag` returns a builder over the first child of that name, not the new one | parameters `['a' => ['x'], 'b' => ['y']]`: both nested vars land in the first `var`, and the second is empty | the builder addresses the child just added, as src's `tag` does for an element with an attribute | high, not executed | LibNotice.TwoArraysShareFirstVar | XmlBuilder.Builder.Tag |
| src/Errbit/Utils/XmlBuilder.php:39 | `new self($childElement)` tests the new child with `?:`, and a SimpleXML element without attributes, children or non-blank text is false, so a blank child is replaced by a fresh document | `tag('notifier', '', array(), $callback)` (src/Errbit/Exception/Notice.php:204-213): the callback's name, version and url go into a throwaway document and the notice gets `<notifier/>` | the callback's builder addresses the new child, as tests/Unit/Errbit/Tests/Utils/XmlBuilderTest.php:115-140 expect | medium, not executed | XmlBuilder.Builder.TagAsWritten, Notice.NotifierBlockAsWritten, Notice.NotifierLostAsWritten | XmlBuilder.Builder.Tag |
| src/Errbit/Utils/Converter.php:55 | `new Error($message, $line, $file, $backtrace)` passes the file name where Error's constructor (src/Errbit/Errors/Error.php:10-18) takes `?\Throwable $previous` | `convert(E_USER_ERROR, 'TestError', 'test.php', 8, [])`: a TypeError, no record | an `Errbit\Errors\Error` record with message, line and file, as tests/Unit/Errbit/Tests/Utils/ConverterTest.php:60-63 expect | high, not executed | Converter.Convert, Converter.ConvertUserErrorFails | Converter.ConvertIntended |
| src/Errbit/Writer/SocketWriter.php:32-42 | `str_split` cuts at byte 7000, `json_encode` returns false for a chunk that cuts a multi-byte character, and `fwrite` writes false as "" | an asynchronous payload of 6999 ASCII bytes followed by "é": both packets are empty writes | the chunks are cut between characters, so every packet is sent and the receiver can reassemble the payload | high, not executed | Writers.PacketLost, Writers.PacketLostExample | Writers.CharPacketsReassemble |
