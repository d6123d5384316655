/** The embed-snippet generator (src/components/admin/EmbedCodeGenerator.tsx):
    the snippet text built from the chosen options and the signed-in user,
    and the configuration the widget script ends up with when a page runs
    it. */
module EmbedCode {
  import opened Common
  import W = WidgetScript

  /** The options the generator offers. */
  datatype Options = Options(position: string, theme: string, showBadge: bool, autoOpen: bool)

  /** The generator's initial options. */
  const DefaultOptions: Options := Options("bottom-right", "light", true, false)

  /** The placeholder used when nobody is signed in. */
  const Placeholder: string := "YOUR_USER_ID"

  /** How a boolean is written into the snippet. */
  function BoolText(b: bool): (t: string)
    ensures t == "true" <==> b
  {
    if b then "true" else "false"
  }

  /** The user id the snippet carries: the signed-in user's, or the placeholder. */
  function SnippetUserId(userId: Option<string>): (u: string)
    ensures Truthy(userId) ==> u == userId.value
    ensures !Truthy(userId) ==> u == Placeholder
    ensures u != ""
  {
    OrElse(userId, Placeholder)
  }

  // ---------------------------------------------------------------------
  // The text

  /** The first three lines: a comment, the opening script tag and the
      start of the configuration object. */
  const Head: string := "<!-- Announcements Widget -->\n" + "<script>\n" + "  window.AnnouncementsConfig = {\n"

  /** The closing of the configuration object and its script element. */
  const Close: string := "  };\n</script>\n"

  /** A property of the configuration object on a line of its own, followed
      by a comma unless it is the last one. */
  function PropertyLine(key: string, value: string, last: bool): string {
    "    " + key + ": " + value + (if last then "\n" else ",\n")
  }

  /** A JavaScript string literal in single quotes. */
  function Quoted(s: string): string {
    "'" + s + "'"
  }

  function UserIdLine(userId: Option<string>): string { PropertyLine("userId", Quoted(SnippetUserId(userId)), false) }
  function PositionLine(o: Options): string { PropertyLine("position", Quoted(o.position), false) }
  function ThemeLine(o: Options): string { PropertyLine("theme", Quoted(o.theme), false) }
  function ShowBadgeLine(o: Options): string { PropertyLine("showBadge", BoolText(o.showBadge), false) }
  function AutoOpenLine(o: Options): string { PropertyLine("autoOpen", BoolText(o.autoOpen), true) }

  /** The loader for the widget script on the console's own origin. */
  function LoaderLine(origin: string): string {
    "<script src=\"" + origin + "/widget.js\"></script>"
  }

  /** Everything after the head: the five property lines, the closing and
      the loader. */
  function Body(userId: Option<string>, o: Options, origin: string): (code: string)
    ensures Contains(code, UserIdLine(userId))
    ensures Contains(code, PositionLine(o)) && Contains(code, ThemeLine(o))
    ensures Contains(code, ShowBadgeLine(o)) && Contains(code, AutoOpenLine(o))
    ensures Contains(code, LoaderLine(origin))
  {
    var g := Close + LoaderLine(origin);
    var f := AutoOpenLine(o) + g;
    var d := ShowBadgeLine(o) + f;
    var c := ThemeLine(o) + d;
    var b := PositionLine(o) + c;
    ContainsPrefix(PositionLine(o), c);
    ContainsPrefix(ThemeLine(o), d);
    ContainsAfter(PositionLine(o), c, ThemeLine(o));
    ContainsPrefix(ShowBadgeLine(o), f);
    ContainsAfter(ThemeLine(o), d, ShowBadgeLine(o));
    ContainsAfter(PositionLine(o), c, ShowBadgeLine(o));
    ContainsPrefix(AutoOpenLine(o), g);
    ContainsAfter(ShowBadgeLine(o), f, AutoOpenLine(o));
    ContainsAfter(ThemeLine(o), d, AutoOpenLine(o));
    ContainsAfter(PositionLine(o), c, AutoOpenLine(o));
    ContainsPrefix(LoaderLine(origin), "");
    assert LoaderLine(origin) + "" == LoaderLine(origin);
    ContainsAfter(Close, LoaderLine(origin), LoaderLine(origin));
    ContainsAfter(AutoOpenLine(o), g, LoaderLine(origin));
    ContainsAfter(ShowBadgeLine(o), f, LoaderLine(origin));
    ContainsAfter(ThemeLine(o), d, LoaderLine(origin));
    ContainsAfter(PositionLine(o), c, LoaderLine(origin));
    ContainsPrefix(UserIdLine(userId), b);
    ContainsAfter(UserIdLine(userId), b, PositionLine(o));
    ContainsAfter(UserIdLine(userId), b, ThemeLine(o));
    ContainsAfter(UserIdLine(userId), b, ShowBadgeLine(o));
    ContainsAfter(UserIdLine(userId), b, AutoOpenLine(o));
    ContainsAfter(UserIdLine(userId), b, LoaderLine(origin));
    UserIdLine(userId) + b
  }

  /** `embedCode`. */
  function Snippet(userId: Option<string>, o: Options, origin: string): (code: string)
    ensures Contains(code, UserIdLine(userId))
    ensures Contains(code, PositionLine(o)) && Contains(code, ThemeLine(o))
    ensures Contains(code, ShowBadgeLine(o)) && Contains(code, AutoOpenLine(o))
    ensures Contains(code, LoaderLine(origin))
  {
    var body := Body(userId, o, origin);
    ContainsAfter(Head, body, UserIdLine(userId));
    ContainsAfter(Head, body, PositionLine(o));
    ContainsAfter(Head, body, ThemeLine(o));
    ContainsAfter(Head, body, ShowBadgeLine(o));
    ContainsAfter(Head, body, AutoOpenLine(o));
    ContainsAfter(Head, body, LoaderLine(origin));
    Head + body
  }

  // ---------------------------------------------------------------------
  // Keys the snippet does not write

  predicate IsLetter(c: char) {
    ('a' <= c <= 'z') || ('A' <= c <= 'Z')
  }

  /** A property name made of letters with a capital U, such as
      `supabaseUrl` and `apiUrl`. No fixed part of the snippet has a
      capital U, and every joint between parts has a non-letter on one
      side. */
  predicate UrlKey(w: string) {
    'U' in w && forall k :: 0 <= k < |w| ==> IsLetter(w[k])
  }

  /** The parts of the snippet that come from the user: the user id, the
      chosen position and theme, and the console's origin. */
  predicate UserTextsOmit(userId: Option<string>, o: Options, origin: string, w: string) {
    !Contains(SnippetUserId(userId), w) && !Contains(o.position, w) && !Contains(o.theme, w)
    && !Contains(origin, w)
  }

  /** A fixed piece without a capital U cannot contain the key. */
  lemma FixedLacks(piece: string, w: string)
    requires UrlKey(w) && 'U' !in piece
    ensures !Contains(piece, w)
  {
    NotContainsMissingChar(piece, w, 'U');
  }

  /** A quoted value lacks the key when the value does. */
  lemma QuotedLacks(v: string, w: string)
    requires UrlKey(w) && !Contains(v, w)
    ensures !Contains(Quoted(v), w)
  {
    FixedLacks("'", w);
    NotContainsJoin("'", v, w);
    NotContainsJoin("'" + v, "'", w);
  }

  /** A property line lacks the key when its name and value do. */
  lemma PropertyLineLacks(key: string, value: string, last: bool, w: string)
    requires UrlKey(w) && 'U' !in key && !Contains(value, w)
    ensures !Contains(PropertyLine(key, value, last), w)
  {
    var sep := if last then "\n" else ",\n";
    FixedLacks("    ", w);
    FixedLacks(key, w);
    FixedLacks(": ", w);
    FixedLacks(sep, w);
    NotContainsJoin("    ", key, w);
    NotContainsJoin("    " + key, ": ", w);
    var head := "    " + key + ": ";
    assert head[|head| - 1] == ' ';
    NotContainsJoin(head, value, w);
    NotContainsJoin(head + value, sep, w);
  }

  /** A property line ends with a line break. */
  lemma PropertyLineEnds(key: string, value: string, last: bool)
    ensures |PropertyLine(key, value, last)| > 0
    ensures PropertyLine(key, value, last)[|PropertyLine(key, value, last)| - 1] == '\n'
  {
  }

  /** The loader line lacks the key when the origin does. */
  lemma LoaderLacks(origin: string, w: string)
    requires UrlKey(w) && !Contains(origin, w)
    ensures !Contains(LoaderLine(origin), w)
  {
    FixedLacks("<script src=\"", w);
    FixedLacks("/widget.js\"></script>", w);
    NotContainsJoin("<script src=\"", origin, w);
    NotContainsJoin("<script src=\"" + origin, "/widget.js\"></script>", w);
  }

  /** The head has no capital U. */
  lemma HeadLacks(w: string)
    requires UrlKey(w)
    ensures !Contains(Head, w)
  {
    assert 'U' !in "<!-- Announcements Widget -->\n";
    assert 'U' !in "<script>\n";
    assert 'U' !in "  window.AnnouncementsConfig = {\n";
    FixedLacks(Head, w);
  }

  /** Every line of the snippet lacks the key, and each property line ends
      its line. */
  lemma LinesLack(userId: Option<string>, o: Options, origin: string, w: string)
    requires UrlKey(w) && UserTextsOmit(userId, o, origin, w)
    ensures !Contains(UserIdLine(userId), w) && !Contains(PositionLine(o), w) && !Contains(ThemeLine(o), w)
    ensures !Contains(ShowBadgeLine(o), w) && !Contains(AutoOpenLine(o), w)
    ensures !Contains(LoaderLine(origin), w)
  {
    QuotedLacks(SnippetUserId(userId), w);
    QuotedLacks(o.position, w);
    QuotedLacks(o.theme, w);
    FixedLacks(BoolText(o.showBadge), w);
    FixedLacks(BoolText(o.autoOpen), w);
    PropertyLineLacks("userId", Quoted(SnippetUserId(userId)), false, w);
    PropertyLineLacks("position", Quoted(o.position), false, w);
    PropertyLineLacks("theme", Quoted(o.theme), false, w);
    PropertyLineLacks("showBadge", BoolText(o.showBadge), false, w);
    PropertyLineLacks("autoOpen", BoolText(o.autoOpen), true, w);
    LoaderLacks(origin, w);
  }

  /** The body lacks the key: every line does, and every joint follows a
      line break. */
  lemma BodyLacks(userId: Option<string>, o: Options, origin: string, w: string)
    requires UrlKey(w) && UserTextsOmit(userId, o, origin, w)
    ensures !Contains(Body(userId, o, origin), w)
  {
    LinesLack(userId, o, origin, w);
    FixedLacks(Close, w);
    assert '\n' !in w;
    var g := Close + LoaderLine(origin);
    NotContainsJoin(Close, LoaderLine(origin), w);
    var f := AutoOpenLine(o) + g;
    PropertyLineEnds("autoOpen", BoolText(o.autoOpen), true);
    NotContainsJoin(AutoOpenLine(o), g, w);
    var d := ShowBadgeLine(o) + f;
    PropertyLineEnds("showBadge", BoolText(o.showBadge), false);
    NotContainsJoin(ShowBadgeLine(o), f, w);
    var c := ThemeLine(o) + d;
    PropertyLineEnds("theme", Quoted(o.theme), false);
    NotContainsJoin(ThemeLine(o), d, w);
    var b := PositionLine(o) + c;
    PropertyLineEnds("position", Quoted(o.position), false);
    NotContainsJoin(PositionLine(o), c, w);
    PropertyLineEnds("userId", Quoted(SnippetUserId(userId)), false);
    NotContainsJoin(UserIdLine(userId), b, w);
  }

  /** The snippet never mentions a key such as `supabaseUrl` unless the user
      supplied it in one of their own texts. */
  lemma SnippetLacks(userId: Option<string>, o: Options, origin: string, w: string)
    requires UrlKey(w) && UserTextsOmit(userId, o, origin, w)
    ensures !Contains(Snippet(userId, o, origin), w)
  {
    HeadLacks(w);
    BodyLacks(userId, o, origin, w);
    assert '\n' !in w;
    NotContainsJoin(Head, Body(userId, o, origin), w);
  }

  // ---------------------------------------------------------------------
  // What the widget script sees

  /** The `window.AnnouncementsConfig` object the snippet defines: the five
      keys it writes, and no `apiUrl` or `supabaseUrl`. */
  function SnippetConfig(userId: Option<string>, o: Options): W.UserConfig {
    W.UserConfig(Some(SnippetUserId(userId)), Some(o.position), Some(o.theme),
                 Some(o.showBadge), Some(o.autoOpen), None, None)
  }

  /** The configuration record is the one the snippet text writes: every
      key it holds appears in the text as a property line with that value. */
  lemma SnippetDefinesConfig(userId: Option<string>, o: Options, origin: string)
    ensures var code := Snippet(userId, o, origin);
      var u := SnippetConfig(userId, o);
      && u.userId.Some? && Contains(code, PropertyLine("userId", Quoted(u.userId.value), false))
      && u.position.Some? && Contains(code, PropertyLine("position", Quoted(u.position.value), false))
      && u.theme.Some? && Contains(code, PropertyLine("theme", Quoted(u.theme.value), false))
      && u.showBadge.Some? && Contains(code, PropertyLine("showBadge", BoolText(u.showBadge.value), false))
      && u.autoOpen.Some? && Contains(code, PropertyLine("autoOpen", BoolText(u.autoOpen.value), true))
  {
    var code := Snippet(userId, o, origin);
    assert Contains(code, UserIdLine(userId)) && Contains(code, PositionLine(o)) && Contains(code, ThemeLine(o));
    assert Contains(code, ShowBadgeLine(o)) && Contains(code, AutoOpenLine(o));
  }

  /** The two keys the record lacks, `supabaseUrl` and `apiUrl`, appear
      nowhere in the snippet text unless the user typed them into one of
      their own values. */
  lemma SnippetOmitsUrlKeys(userId: Option<string>, o: Options, origin: string)
    ensures SnippetConfig(userId, o).supabaseUrl.None? && SnippetConfig(userId, o).apiUrl.None?
    ensures UserTextsOmit(userId, o, origin, "supabaseUrl") ==> !Contains(Snippet(userId, o, origin), "supabaseUrl")
    ensures UserTextsOmit(userId, o, origin, "apiUrl") ==> !Contains(Snippet(userId, o, origin), "apiUrl")
  {
    if UserTextsOmit(userId, o, origin, "supabaseUrl") {
      SnippetLacks(userId, o, origin, "supabaseUrl");
    }
    if UserTextsOmit(userId, o, origin, "apiUrl") {
      SnippetLacks(userId, o, origin, "apiUrl");
    }
  }

  /** The script runs with exactly the chosen options: each one overrides
      the script's default, and with the generator's initial options the
      result is the script's own defaults plus the user id. */
  lemma SnippetOptionsReachWidget(userId: Option<string>, o: Options, origin: string)
    ensures var c := W.Merge(Some(SnippetConfig(userId, o)), origin);
      && c.position == o.position && c.theme == o.theme
      && c.showBadge == o.showBadge && c.autoOpen == o.autoOpen
      && c.userId == Some(SnippetUserId(userId))
    ensures W.Merge(Some(SnippetConfig(userId, DefaultOptions)), origin)
         == W.Defaults(origin).(userId := Some(SnippetUserId(userId)))
  {
  }

  /** As written, the snippet text never mentions `supabaseUrl`, so the
      page leaves it unset and the script asks the relative address below
      for announcements instead of the announcements endpoint. */
  lemma SnippetFetchUrlAsWritten(userId: Option<string>, o: Options, origin: string)
    ensures W.FetchUrl(W.Merge(Some(SnippetConfig(userId, o)), origin)) == "undefined/functions/v1/announcements"
    ensures UserTextsOmit(userId, o, origin, "supabaseUrl") ==> !Contains(Snippet(userId, o, origin), "supabaseUrl")
  {
    if UserTextsOmit(userId, o, origin, "supabaseUrl") {
      SnippetLacks(userId, o, origin, "supabaseUrl");
    }
  }

  /** The evidently intended snippet: the same text with the store's base
      address written as the first property. */
  function SnippetWithEndpoint(userId: Option<string>, o: Options, origin: string, storeUrl: string): (code: string)
    ensures Contains(code, PropertyLine("supabaseUrl", Quoted(storeUrl), false))
    ensures Contains(code, UserIdLine(userId)) && Contains(code, AutoOpenLine(o))
    ensures Contains(code, LoaderLine(origin))
  {
    var line := PropertyLine("supabaseUrl", Quoted(storeUrl), false);
    var body := Body(userId, o, origin);
    ContainsPrefix(line, body);
    ContainsAfter(Head, line + body, line);
    ContainsAfter(line, body, UserIdLine(userId));
    ContainsAfter(Head, line + body, UserIdLine(userId));
    ContainsAfter(line, body, AutoOpenLine(o));
    ContainsAfter(Head, line + body, AutoOpenLine(o));
    ContainsAfter(line, body, LoaderLine(origin));
    ContainsAfter(Head, line + body, LoaderLine(origin));
    Head + (line + body)
  }

  /** The configuration the corrected snippet defines. */
  function SnippetConfigWithEndpoint(userId: Option<string>, o: Options, storeUrl: string): W.UserConfig {
    SnippetConfig(userId, o).(supabaseUrl := Some(storeUrl))
  }

  /** With the base address written into the snippet, the script's fetch
      address is the endpoint under that base. */
  lemma SnippetWithEndpointFetchesEndpoint(userId: Option<string>, o: Options, storeUrl: string, origin: string)
    ensures Contains(SnippetWithEndpoint(userId, o, origin, storeUrl),
                     PropertyLine("supabaseUrl", Quoted(SnippetConfigWithEndpoint(userId, o, storeUrl).supabaseUrl.value), false))
    ensures W.FetchUrl(W.Merge(Some(SnippetConfigWithEndpoint(userId, o, storeUrl)), origin))
         == storeUrl + "/functions/v1/announcements"
  {
  }
}
