/**
 * The rules of the General command module (modules/general.py): the colour
 * triplet, the uptime breakdown and its text, the argument parsing of `urban`,
 * the language setting and its fallback, the cross-instance totals of `info`,
 * the role list of `userinfo` and the online count of `serverinfo`.
 */
module General {
  import opened Wrappers
  import opened Text
  import KeyValue

  // ---------------------------------------------------------------------------
  // Colour triplet (general.py:25-26) and the avatar embed colour (general.py:344)
  // ---------------------------------------------------------------------------

  /** `rgb[0]<<16 | rgb[1]<<8 | rgb[2]` for one byte per colour component */
  function Pack(r: bv8, g: bv8, b: bv8): (v: nat)
    ensures v == (r as nat) * 65536 + (g as nat) * 256 + b as nat
    ensures v < 0x1000000
  {
    (((r as bv24) << 16) | ((g as bv24) << 8) | (b as bv24)) as nat
  }

  lemma Pow16Six()
    ensures Pow(16, 6) == 16777216
  {
    assert Pow(16, 1) == 16;
    assert Pow(16, 2) == 256;
    assert Pow(16, 3) == 4096;
    assert Pow(16, 4) == 65536;
    assert Pow(16, 5) == 1048576;
  }

  /** The `'06X'` form of a number below 2^24: six digits that read back as the number */
  function Hex6(v: nat): (s: string)
    requires v < 0x1000000
    ensures |s| == 6
    ensures forall i :: 0 <= i < 6 ==> s[i] in DigitChars
    ensures ParseHex(s) == Some(v)
  {
    var digits := ToDigits(v, 16);
    Pow16Six();
    ToDigitsLength(v, 16, 6);
    ToDigitsRoundTrip(v, 16);
    PadZerosValue(digits, 6, 16);
    PadZerosChars(digits, 6);
    PadZeros(digits, 6)
  }

  /**
   * `triplet(rgb)`, i.e. `format(v, '06X')` of the packed colour: exactly six
   * upper-case hexadecimal digits, which `int(_, 16)` reads back as the colour.
   */
  function Triplet(r: bv8, g: bv8, b: bv8): (s: string)
    ensures |s| == 6
    ensures forall i :: 0 <= i < 6 ==> s[i] in DigitChars
    ensures ParseHex(s) == Some((r as nat) * 65536 + (g as nat) * 256 + b as nat)
  {
    Hex6(Pack(r, g, b))
  }

  /** The embed colour of `avatar`: `int(triplet(colour), 16)` */
  function AvatarColor(r: bv8, g: bv8, b: bv8): (c: nat)
    ensures c == Pack(r, g, b) && c < 0x1000000
  {
    ParseHex(Triplet(r, g, b)).value
  }

  // ---------------------------------------------------------------------------
  // Uptime (general.py:91-108)
  // ---------------------------------------------------------------------------

  datatype Uptime = Uptime(days: int, hours: int, minutes: int, seconds: int)

  ghost predicate Normalized(u: Uptime, elapsed: int) {
    && u.days * 86400 + u.hours * 3600 + u.minutes * 60 + u.seconds == elapsed
    && 0 <= u.hours < 24 && 0 <= u.minutes < 60 && 0 <= u.seconds < 60
  }

  /**
   * The `divmod` chain of `get_bot_uptime` on the whole seconds elapsed.
   * Python's `divmod` floors; for a positive divisor that is Dafny's `/` and `%`.
   */
  function UptimeParts(elapsed: int): (u: Uptime)
    ensures u.days * 86400 + u.hours * 3600 + u.minutes * 60 + u.seconds == elapsed
    ensures 0 <= u.hours < 24 && 0 <= u.minutes < 60 && 0 <= u.seconds < 60
    ensures elapsed >= 0 ==> u.days >= 0
  {
    var hours, remainder := elapsed / 3600, elapsed % 3600;
    var minutes, seconds := remainder / 60, remainder % 60;
    var days, h := hours / 24, hours % 24;
    Uptime(days, h, minutes, seconds)
  }

  /** The breakdown is the only one with hours below 24 and minutes and seconds below 60 */
  lemma UptimePartsUnique(elapsed: int, u: Uptime)
    requires Normalized(u, elapsed)
    ensures u == UptimeParts(elapsed)
  {
    var v := UptimeParts(elapsed);
    var du, dv := u.hours * 3600 + u.minutes * 60 + u.seconds, v.hours * 3600 + v.minutes * 60 + v.seconds;
    assert 0 <= du < 86400 && 0 <= dv < 86400;
    assert u.days == v.days;
    assert u.hours == v.hours;
    assert u.minutes == v.minutes;
  }

  /** The long form, with the days field only when `d` is given */
  function LongText(d: Option<string>, h: string, m: string, s: string): string {
    var hms := h + " hours, " + m + " minutes, and " + s + " seconds";
    if d.Some? then d.value + " days, " + hms else hms
  }

  /** The brief form, with the days field only when `d` is given */
  function BriefText(d: Option<string>, h: string, m: string, s: string): string {
    var hms := h + "h " + m + "m " + s + "s";
    if d.Some? then d.value + "d " + hms else hms
  }

  /** The format chosen by `get_bot_uptime`: the days field only when days is not zero */
  function FormatUptime(u: Uptime, brief: bool): string {
    var d := if u.days != 0 then Some(IntToString(u.days)) else None;
    var h, m, s := IntToString(u.hours), IntToString(u.minutes), IntToString(u.seconds);
    if brief then BriefText(d, h, m, s) else LongText(d, h, m, s)
  }

  /** The characters of a number written by `str` */
  predicate Numeral(x: string) {
    forall k :: 0 <= k < |x| ==> x[k] == '-' || '0' <= x[k] <= '9'
  }

  lemma LongTextDays(d: Option<string>, h: string, m: string, s: string)
    requires Numeral(h) && Numeral(m) && Numeral(s)
    ensures Contains(LongText(d, h, m, s), "days") <==> d.Some?
  {
    var hms := h + " hours, " + m + " minutes, and " + s + " seconds";
    if d.Some? {
      ContainsMiddle(d.value + " ", "days", ", " + hms);
      assert LongText(d, h, m, s) == d.value + " " + "days" + (", " + hms);
    } else {
      assert 'y' !in h && 'y' !in m && 'y' !in s;
      assert 'y' !in hms;
      MissingCharNotContained(hms, "days", 2);
    }
  }

  lemma BriefTextDays(d: Option<string>, h: string, m: string, s: string)
    requires Numeral(h) && Numeral(m) && Numeral(s)
    ensures Contains(BriefText(d, h, m, s), "d ") <==> d.Some?
    ensures EndsWith(BriefText(d, h, m, s), h + "h " + m + "m " + s + "s")
  {
    var hms := h + "h " + m + "m " + s + "s";
    var text := BriefText(d, h, m, s);
    if d.Some? {
      ContainsMiddle(d.value, "d ", hms);
      assert text == d.value + "d " + hms;
    } else {
      assert 'd' !in h && 'd' !in m && 'd' !in s;
      assert 'd' !in hms;
      MissingCharNotContained(hms, "d ", 0);
    }
    assert text[|text| - |hms|..] == hms;
  }

  /**
   * `get_bot_uptime` on the whole seconds elapsed since start-up. The long form is
   * "{d} days, {h} hours, {m} minutes, and {s} seconds" and the brief form
   * "{d}d {h}h {m}m {s}s", each with the days field only when days is not zero.
   */
  function GetBotUptime(elapsed: int, brief: bool): (text: string)
    ensures var u := UptimeParts(elapsed);
      !brief ==> text == (if u.days != 0 then IntToString(u.days) + " days, " else "") +
                         (IntToString(u.hours) + " hours, " + IntToString(u.minutes) + " minutes, and " +
                          IntToString(u.seconds) + " seconds")
    ensures var u := UptimeParts(elapsed);
      brief ==> text == (if u.days != 0 then IntToString(u.days) + "d " else "") +
                        (IntToString(u.hours) + "h " + IntToString(u.minutes) + "m " + IntToString(u.seconds) + "s")
    ensures var u := UptimeParts(elapsed);
      !brief ==> (Contains(text, "days") <==> u.days != 0)
    ensures var u := UptimeParts(elapsed);
      brief ==> (Contains(text, "d ") <==> u.days != 0)
    ensures var u := UptimeParts(elapsed);
      brief ==> EndsWith(text, IntToString(u.hours) + "h " + IntToString(u.minutes) + "m " + IntToString(u.seconds) + "s")
  {
    var u := UptimeParts(elapsed);
    var d := if u.days != 0 then Some(IntToString(u.days)) else None;
    var h, m, s := IntToString(u.hours), IntToString(u.minutes), IntToString(u.seconds);
    LongTextDays(d, h, m, s);
    BriefTextDays(d, h, m, s);
    FormatUptime(u, brief)
  }

  /** One word of the brief form read back: the number before the unit letter `unit` */
  function ReadField(word: string, unit: char): Option<int> {
    if |word| >= 1 && word[|word| - 1] == unit then ParseInt(word[..|word| - 1]) else None
  }

  /** A number followed by its unit letter reads back as the number */
  lemma ReadFieldOf(x: int, unit: char)
    ensures ReadField(IntToString(x) + [unit], unit) == Some(x)
  {
    var w := IntToString(x) + [unit];
    assert w[..|w| - 1] == IntToString(x);
    IntToStringRoundTrip(x);
  }

  /** A number followed by a unit letter holds no space */
  lemma FieldHasNoSpace(x: int, unit: char)
    requires unit != ' '
    ensures ' ' !in IntToString(x) + [unit]
  {
  }

  /** The brief form is its words joined by single spaces */
  lemma BriefWords(d: string, h: string, m: string, s: string, withDays: bool)
    ensures Join((if withDays then [d + "d"] else []) + [h + "h", m + "m", s + "s"], " ") ==
            (if withDays then d + "d " else "") + (h + "h " + m + "m " + s + "s")
  {
    var hms := [h + "h", m + "m", s + "s"];
    assert hms[1..] == [m + "m", s + "s"];
    assert hms[1..][1..] == [s + "s"];
    assert Join([s + "s"], " ") == s + "s";
    assert Join(hms[1..], " ") == m + "m" + " " + (s + "s");
    assert Join(hms, " ") == h + "h" + " " + (m + "m" + " " + (s + "s"));
    assert h + "h" + " " + (m + "m" + " " + (s + "s")) == h + "h " + m + "m " + s + "s";
    if withDays {
      var parts := [d + "d"] + hms;
      assert parts[1..] == hms;
      assert Join(parts, " ") == d + "d" + " " + Join(hms, " ");
      assert d + "d" + " " == d + "d ";
    } else {
      assert [] + hms == hms;
      assert "" + Join(hms, " ") == Join(hms, " ");
    }
  }

  /**
   * The brief form reads back: split on spaces it is the day field (only when
   * days is not zero) and the hour, minute and second fields, and each field
   * gives back its number of the breakdown.
   */
  lemma {:induction false} BriefUptimeReadsBack(elapsed: int)
    ensures var u := UptimeParts(elapsed);
      var w := Split(GetBotUptime(elapsed, true), ' ');
      && |w| == (if u.days != 0 then 4 else 3)
      && (u.days != 0 ==> ReadField(w[0], 'd') == Some(u.days))
      && ReadField(w[|w| - 3], 'h') == Some(u.hours)
      && ReadField(w[|w| - 2], 'm') == Some(u.minutes)
      && ReadField(w[|w| - 1], 's') == Some(u.seconds)
  {
    var u := UptimeParts(elapsed);
    var dw, hw, mw, sw := IntToString(u.days) + "d", IntToString(u.hours) + "h",
                          IntToString(u.minutes) + "m", IntToString(u.seconds) + "s";
    var parts := (if u.days != 0 then [dw] else []) + [hw, mw, sw];
    FieldHasNoSpace(u.days, 'd');
    FieldHasNoSpace(u.hours, 'h');
    FieldHasNoSpace(u.minutes, 'm');
    FieldHasNoSpace(u.seconds, 's');
    BriefWords(IntToString(u.days), IntToString(u.hours), IntToString(u.minutes), IntToString(u.seconds), u.days != 0);
    SplitJoin(parts, ' ');
    ReadFieldOf(u.days, 'd');
    ReadFieldOf(u.hours, 'h');
    ReadFieldOf(u.minutes, 'm');
    ReadFieldOf(u.seconds, 's');
  }

  // ---------------------------------------------------------------------------
  // Arguments of `urban` (general.py:295-311)
  // ---------------------------------------------------------------------------

  lemma {:induction false} JoinSnoc(parts: seq<string>, last: string, sep: string)
    requires |parts| >= 1
    ensures Join(parts + [last], sep) == Join(parts, sep) + sep + last
  {
    if |parts| > 1 {
      JoinSnoc(parts[1..], last, sep);
      assert (parts + [last])[1..] == parts[1..] + [last];
    } else {
      assert (parts + [last])[1..] == [last];
    }
  }

  /**
   * The search words and the definition position `urban` takes from its
   * argument. A last word that `int()` reads is dropped from the words (even
   * when its number is out of range); the position is that number minus one
   * when it is 1 to 11, and 0 otherwise. With a single word, or a last word
   * that is no number, every word is kept and the position is 0.
   */
  method ParseUrbanArgs(searchTerms: string) returns (terms: seq<string>, pos: int)
    ensures 0 <= pos <= 10
    ensures |terms| >= 1
    ensures var words := Split(searchTerms, ' ');
      if |words| > 1 && ParseInt(words[|words| - 1]).Some? then
        && terms == words[..|words| - 1]
        && pos == (var n := ParseInt(words[|words| - 1]).value; if 1 <= n <= 11 then n - 1 else 0)
      else terms == words && pos == 0
    ensures var words := Split(searchTerms, ' ');
      searchTerms == Join(terms, " ") + (if |terms| < |words| then " " + words[|words| - 1] else "")
  {
    var words := Split(searchTerms, ' ');
    terms := words;
    JoinSplit(searchTerms, ' ');
    if |terms| > 1 {
      var number := ParseInt(terms[|terms| - 1]);
      if number.None? {
        // int() raised ValueError before the last word was dropped
        pos := 0;
        return;
      }
      pos := number.value - 1;
      terms := terms[..|terms| - 1];
      JoinSnoc(terms, words[|words| - 1], " ");
      SplitLast(words);
    } else {
      pos := 0;
    }
    if !(0 <= pos < 11) {
      pos := 0;
    }
  }

  const UrbanEndpoint := "http://api.urbandictionary.com/v0/define?term="

  /** The lookup URL: the words, each passed through `quote_plus`, joined by "+" */
  function UrbanUrl(terms: seq<string>, encode: string -> string): (url: string)
    ensures |url| >= |UrbanEndpoint| && url[..|UrbanEndpoint|] == UrbanEndpoint
  {
    UrbanEndpoint + Join(seq(|terms|, i requires 0 <= i < |terms| => encode(terms[i])), "+")
  }

  /**
   * Since `quote_plus` writes no "+" for a word without spaces, the query part of
   * the URL splits back on "+" into the encoded words.
   */
  lemma UrbanQueryRecoversWords(terms: seq<string>, encode: string -> string)
    requires |terms| >= 1
    requires forall i :: 0 <= i < |terms| ==> '+' !in encode(terms[i])
    ensures Split(UrbanUrl(terms, encode)[|UrbanEndpoint|..], '+') ==
            seq(|terms|, i requires 0 <= i < |terms| => encode(terms[i]))
  {
    var encoded := seq(|terms|, i requires 0 <= i < |terms| => encode(terms[i]));
    SplitJoin(encoded, '+');
    assert UrbanUrl(terms, encode)[|UrbanEndpoint|..] == Join(encoded, "+");
  }

  // ---------------------------------------------------------------------------
  // Languages: the table, `setlang` and the stored-language fallback
  // (general.py:28-36, 49-70, 76-80 and the same lines at 134-138, 174-178, 219-223, 263-267)
  // ---------------------------------------------------------------------------

  const Languages: seq<string> := ["english", "weeb", "tsundere", "polish", "spanish", "french"]
  const DefaultLanguage := "english"

  /** The store key of a user's language, `"{author_id}-lang"` */
  function LangKey(authorId: nat): string {
    NatToString(authorId) + "-lang"
  }

  /** The loaded table has one entry per listed language */
  ghost predicate LoadedTable<T>(table: map<string, T>) {
    forall la :: la in table <==> la in Languages
  }

  /** `getlang(la)`: the language's table, None for a name that was not loaded */
  function GetLang<T>(table: map<string, T>, la: string): (r: Option<T>)
    ensures r.Some? <==> la in table
    ensures r.Some? ==> r.value == table[la]
    ensures LoadedTable(table) ==> (r.Some? <==> la in Languages)
  {
    if la in table then Some(table[la]) else None
  }

  /** The language a command answers in: the stored one, "english" when nothing (or an empty value) is stored */
  function StoredLanguage(data: map<string, string>, authorId: nat): (la: string)
    ensures la != ""
    ensures LangKey(authorId) !in data ==> la == "english"
    ensures LangKey(authorId) in data && data[LangKey(authorId)] != "" ==> la == data[LangKey(authorId)]
    ensures LangKey(authorId) in data && data[LangKey(authorId)] == "" ==> la == "english"
  {
    match KeyValue.Stored(data, LangKey(authorId))
    case Some(la) => la
    case None => DefaultLanguage
  }

  /** Every language value in the store is one of the listed languages */
  ghost predicate ValidLanguages(data: map<string, string>) {
    forall k :: k in data && EndsWith(k, "-lang") && data[k] != "" ==> data[k] in Languages
  }

  /** While the store holds only listed languages, every command finds its language table */
  lemma LanguageAlwaysLoaded<T>(table: map<string, T>, data: map<string, string>, authorId: nat)
    requires LoadedTable(table) && ValidLanguages(data)
    ensures GetLang(table, StoredLanguage(data, authorId)).Some?
  {
    var key := LangKey(authorId);
    assert EndsWith(key, "-lang");
  }

  datatype SetLangReply = UsageHelp | LanguageSet(text: string) | InvalidLanguage

  /**
   * `setlang`: with no argument it shows its usage; with an argument whose
   * lower-case form is a listed language it stores that form under the user's
   * key; otherwise it writes nothing.
   */
  method SetLang(store: KeyValue.Store, authorId: nat, lang: Option<string>) returns (reply: SetLangReply)
    modifies store
    ensures lang.None? ==> reply == UsageHelp && store.data == old(store.data)
    ensures lang.Some? && Lower(lang.value) in Languages ==>
              && store.data == old(store.data)[LangKey(authorId) := Lower(lang.value)]
              && reply == LanguageSet("Set language to " + Title(lang.value) + "!")
    ensures lang.Some? && Lower(lang.value) !in Languages ==>
              store.data == old(store.data) && reply == InvalidLanguage
    ensures ValidLanguages(old(store.data)) ==> ValidLanguages(store.data)
  {
    if lang.None? {
      return UsageHelp;
    }
    var lower := Lower(lang.value);
    if lower in Languages {
      store.Set(LangKey(authorId), lower);
      reply := LanguageSet("Set language to " + Title(lang.value) + "!");
    } else {
      reply := InvalidLanguage;
    }
  }

  /** After a successful `setlang` the user's commands answer in the chosen language */
  lemma SetLangThenRead(data: map<string, string>, authorId: nat, lang: string)
    requires Lower(lang) in Languages
    ensures StoredLanguage(data[LangKey(authorId) := Lower(lang)], authorId) == Lower(lang)
  {
  }

  /** The confirmation names the language capitalised: "Set language to English!" */
  lemma {:induction false} TitleOfLanguage(lang: string)
    requires Lower(lang) in Languages
    ensures |lang| >= 1
    ensures Title(lang) == [UpperChar(Lower(lang)[0])] + Lower(lang)[1..]
  {
    LanguageNamesAreLower(Lower(lang));
    TitleOfLetters(lang);
  }

  /** Every listed language name is a non-empty run of lower-case letters */
  lemma LanguageNamesAreLower(la: string)
    requires la in Languages
    ensures |la| >= 1 && forall i :: 0 <= i < |la| ==> IsLower(la[i])
  {
  }

  // ---------------------------------------------------------------------------
  // Totals of `info` across the three instances (general.py:116-132)
  // ---------------------------------------------------------------------------

  /** The five statistics each instance publishes */
  datatype Stat = Guilds | Users | Messages | Commands | Channels

  function StatName(stat: Stat): string {
    match stat
    case Guilds => "guilds"
    case Users => "users"
    case Messages => "messages"
    case Commands => "commands"
    case Channels => "channels"
  }

  /** The store key `"instance{x}-{stat}"` */
  function InstanceKey(x: nat, stat: Stat): string {
    "instance" + NatToString(x) + "-" + StatName(stat)
  }

  /**
   * `int(get(key).decode("utf8"))`: None when the key is missing (decoding None
   * raises) or the value is no integer (`int` raises).
   */
  function StatValue(data: map<string, string>, x: nat, stat: Stat): Option<int> {
    match KeyValue.Lookup(data, InstanceKey(x, stat))
    case None => None
    case Some(v) => ParseInt(v)
  }

  /** Every statistic of instances 0 to n-1 can be read */
  predicate StatsAvailable(data: map<string, string>, n: nat) {
    forall x: nat, stat: Stat | x < n :: StatValue(data, x, stat).Some?
  }

  /** The sum of one statistic over instances 0 to n-1 (meaningful when they are all available) */
  function StatSum(data: map<string, string>, stat: Stat, n: nat): int {
    if n == 0 then 0 else StatSum(data, stat, n - 1) + StatValue(data, n - 1, stat).GetOr(0)
  }

  /** The total of one statistic over the three instances */
  function Total(data: map<string, string>, stat: Stat): int
    requires StatsAvailable(data, 3)
  {
    StatValue(data, 0, stat).value + StatValue(data, 1, stat).value + StatValue(data, 2, stat).value
  }

  lemma AvailableNext(data: map<string, string>, x: nat)
    requires StatsAvailable(data, x)
    requires StatValue(data, x, Guilds).Some? && StatValue(data, x, Users).Some?
    requires StatValue(data, x, Messages).Some? && StatValue(data, x, Commands).Some?
    requires StatValue(data, x, Channels).Some?
    ensures StatsAvailable(data, x + 1)
  {
    forall x': nat, stat: Stat | x' < x + 1
      ensures StatValue(data, x', stat).Some?
    {
      if x' == x {
        match stat
        case Guilds => case Users => case Messages => case Commands => case Channels =>
      }
    }
  }

  lemma SumOfThree(data: map<string, string>, stat: Stat)
    requires StatsAvailable(data, 3)
    ensures StatSum(data, stat, 3) == Total(data, stat)
  {
    assert StatSum(data, stat, 1) == StatValue(data, 0, stat).GetOr(0);
    assert StatSum(data, stat, 2) == StatSum(data, stat, 1) + StatValue(data, 1, stat).GetOr(0);
  }

  datatype Totals = Totals(guilds: int, users: int, messages: int, commands: int, channels: int)

  /**
   * The five running totals of `info`: each is the sum of its statistic over
   * instances 0, 1 and 2; a missing or non-numeric value makes the command fail.
   */
  method InfoTotals(data: map<string, string>) returns (totals: Option<Totals>)
    ensures totals.Some? <==> StatsAvailable(data, 3)
    ensures totals.Some? ==>
      totals.value == Totals(Total(data, Guilds), Total(data, Users), Total(data, Messages),
                             Total(data, Commands), Total(data, Channels))
  {
    var servers, members, messages, commands, channels := 0, 0, 0, 0, 0;
    var x := 0;
    while x < 3
      invariant 0 <= x <= 3
      invariant StatsAvailable(data, x)
      invariant servers == StatSum(data, Guilds, x)
      invariant members == StatSum(data, Users, x)
      invariant messages == StatSum(data, Messages, x)
      invariant commands == StatSum(data, Commands, x)
      invariant channels == StatSum(data, Channels, x)
    {
      var y := StatValue(data, x, Guilds);
      if y.None? { return None; }
      servers := servers + y.value;
      y := StatValue(data, x, Users);
      if y.None? { return None; }
      members := members + y.value;
      y := StatValue(data, x, Messages);
      if y.None? { return None; }
      messages := messages + y.value;
      y := StatValue(data, x, Commands);
      if y.None? { return None; }
      commands := commands + y.value;
      y := StatValue(data, x, Channels);
      if y.None? { return None; }
      channels := channels + y.value;
      AvailableNext(data, x);
      x := x + 1;
    }
    SumOfThree(data, Guilds);
    SumOfThree(data, Users);
    SumOfThree(data, Messages);
    SumOfThree(data, Commands);
    SumOfThree(data, Channels);
    totals := Some(Totals(servers, members, messages, commands, channels));
  }

  // ---------------------------------------------------------------------------
  // The role list of `userinfo` (general.py:199-210)
  // ---------------------------------------------------------------------------

  const Everyone := "@everyone"

  /** `[x for x in names if x != "@everyone"]` */
  function WithoutEveryone(names: seq<string>): (r: seq<string>)
    ensures forall i :: 0 <= i < |r| ==> r[i] != Everyone
    ensures multiset(r) == multiset(names)[Everyone := 0]
  {
    if names == [] then []
    else
      var init := names[..|names| - 1];
      var last := names[|names| - 1];
      assert names == init + [last];
      WithoutEveryone(init) + (if last != Everyone then [last] else [])
  }

  /** `ranking.index(x)`: the first position of `x`, or |ranking| when it is absent */
  function Rank(ranking: seq<string>, x: string): (i: nat)
    ensures i <= |ranking|
  {
    if ranking == [] then 0
    else if ranking[0] == x then 0
    else 1 + Rank(ranking[1..], x)
  }

  /** Rank is `list.index`: the first position holding `x`, or past the end when `x` is absent */
  lemma {:induction false} RankIsIndex(ranking: seq<string>, x: string)
    ensures Rank(ranking, x) < |ranking| <==> x in ranking
    ensures Rank(ranking, x) < |ranking| ==> ranking[Rank(ranking, x)] == x
    ensures forall j :: 0 <= j < Rank(ranking, x) ==> ranking[j] != x
  {
    if ranking != [] && ranking[0] != x {
      RankIsIndex(ranking[1..], x);
      assert ranking == [ranking[0]] + ranking[1..];
    }
  }

  ghost predicate SortedBy(s: seq<string>, ranking: seq<string>) {
    forall i, j :: 0 <= i < j < |s| ==> Rank(ranking, s[i]) <= Rank(ranking, s[j])
  }

  /** Inserts `x` before the first element that does not rank strictly above it */
  function Insert(x: string, s: seq<string>, ranking: seq<string>): (r: seq<string>)
    requires SortedBy(s, ranking)
    ensures SortedBy(r, ranking)
    ensures |r| == |s| + 1
    ensures r[0] == x || (s != [] && r[0] == s[0])
  {
    if s == [] then [x]
    else if Rank(ranking, x) <= Rank(ranking, s[0]) then
      SortedCons(x, s, ranking);
      [x] + s
    else
      SortedTail(s, ranking);
      var rest := Insert(x, s[1..], ranking);
      assert s == [s[0]] + s[1..];
      SortedCons(s[0], rest, ranking);
      [s[0]] + rest
  }

  /** Insertion adds exactly the one name */
  lemma {:induction false} InsertPermutes(x: string, s: seq<string>, ranking: seq<string>)
    requires SortedBy(s, ranking)
    ensures multiset(Insert(x, s, ranking)) == multiset(s) + multiset{x}
  {
    if s != [] && Rank(ranking, x) > Rank(ranking, s[0]) {
      SortedTail(s, ranking);
      InsertPermutes(x, s[1..], ranking);
      assert s == [s[0]] + s[1..];
    }
  }

  /** A name ranked no lower than the first of a sorted sequence can be put in front of it */
  lemma SortedCons(x: string, s: seq<string>, ranking: seq<string>)
    requires SortedBy(s, ranking)
    requires s != [] ==> Rank(ranking, x) <= Rank(ranking, s[0])
    ensures SortedBy([x] + s, ranking)
  {
    forall i, j | 0 <= i < j < |s| + 1
      ensures Rank(ranking, ([x] + s)[i]) <= Rank(ranking, ([x] + s)[j])
    {
      assert ([x] + s)[j] == s[j - 1];
      if i > 0 {
        assert ([x] + s)[i] == s[i - 1];
      }
    }
  }

  /** `sorted(names, key=ranking.index)` for names that all appear in `ranking` */
  function SortByRank(names: seq<string>, ranking: seq<string>): (r: seq<string>)
    ensures multiset(r) == multiset(names)
    ensures SortedBy(r, ranking)
  {
    if names == [] then []
    else
      assert names == [names[0]] + names[1..];
      InsertPermutes(names[0], SortByRank(names[1..], ranking), ranking);
      Insert(names[0], SortByRank(names[1..], ranking), ranking)
  }

  /**
   * The order is forced: two arrangements of the same names that both follow
   * the ranking, with every name ranked, are the same sequence.
   */
  lemma {:induction false} SortedUnique(a: seq<string>, b: seq<string>, ranking: seq<string>)
    requires multiset(a) == multiset(b)
    requires SortedBy(a, ranking) && SortedBy(b, ranking)
    requires forall i :: 0 <= i < |a| ==> a[i] in ranking
    ensures a == b
  {
    assert |a| == |multiset(a)| == |b|;
    if a == [] {
      assert b == [];
    } else {
      SameHead(a, b, ranking);
      SplitFirst(a);
      SplitFirst(b);
      SortedTail(a, ranking);
      SortedTail(b, ranking);
      SortedUnique(a[1..], b[1..], ranking);
    }
  }

  /** Both arrangements start with the best-ranked name */
  lemma SameHead(a: seq<string>, b: seq<string>, ranking: seq<string>)
    requires a != [] && b != [] && multiset(a) == multiset(b)
    requires SortedBy(a, ranking) && SortedBy(b, ranking)
    requires a[0] in ranking
    ensures a[0] == b[0]
  {
    assert a[0] in multiset(b);
    assert b[0] in multiset(a);
    var i :| 0 <= i < |b| && b[i] == a[0];
    var j :| 0 <= j < |a| && a[j] == b[0];
    assert Rank(ranking, b[0]) <= Rank(ranking, b[i]);
    assert Rank(ranking, a[0]) <= Rank(ranking, a[j]);
    RankIsIndex(ranking, a[0]);
    RankIsIndex(ranking, b[0]);
  }

  lemma SortedTail(s: seq<string>, ranking: seq<string>)
    requires s != [] && SortedBy(s, ranking)
    ensures SortedBy(s[1..], ranking)
  {
    forall i, j | 0 <= i < j < |s| - 1
      ensures Rank(ranking, s[1..][i]) <= Rank(ranking, s[1..][j])
    {
      assert s[1..][i] == s[i + 1] && s[1..][j] == s[j + 1];
    }
  }

  /** Leaving out @everyone keeps every other name: a name other than @everyone is in one list iff in the other */
  lemma WithoutEveryoneKeeps(names: seq<string>, x: string)
    requires x != Everyone
    ensures x in WithoutEveryone(names) <==> x in names
  {
    assert x in multiset(WithoutEveryone(names)) <==> x in multiset(names);
  }

  predicate AllIn(names: seq<string>, ranking: seq<string>) {
    forall i :: 0 <= i < |names| ==> names[i] in ranking
  }

  /**
   * The "Roles" field of `userinfo`: "None" when the member has no role besides
   * @everyone; otherwise the names, @everyone left out, ordered by their position
   * in the server's role hierarchy (itself without @everyone) and joined by ", ".
   * A name missing from the hierarchy makes `index` raise and the field is left
   * out (None).
   */
  function RolesField(userRoles: seq<string>, hierarchy: seq<string>): (field: Option<string>)
    ensures WithoutEveryone(userRoles) == [] ==> field == Some("None")
    ensures WithoutEveryone(userRoles) != [] ==> (field.Some? <==> AllIn(WithoutEveryone(userRoles), hierarchy))
  {
    var names := WithoutEveryone(userRoles);
    var ranking := WithoutEveryone(hierarchy);
    RankedIffInHierarchy(names, hierarchy);
    if names == [] then Some("None")
    else if AllIn(names, ranking) then Some(Join(SortByRank(names, ranking), ", "))
    else None
  }

  lemma RankedIffInHierarchy(names: seq<string>, hierarchy: seq<string>)
    requires forall i :: 0 <= i < |names| ==> names[i] != Everyone
    ensures AllIn(names, WithoutEveryone(hierarchy)) <==> AllIn(names, hierarchy)
  {
    forall i | 0 <= i < |names|
      ensures names[i] in WithoutEveryone(hierarchy) <==> names[i] in hierarchy
    {
      WithoutEveryoneKeeps(hierarchy, names[i]);
    }
  }

  /**
   * When the member has roles besides @everyone and all of them are in the
   * hierarchy, the field lists exactly those roles (with their repetitions),
   * never @everyone, in hierarchy order; that order is the only one possible.
   */
  lemma RolesFieldListsRoles(userRoles: seq<string>, hierarchy: seq<string>)
    requires WithoutEveryone(userRoles) != []
    requires AllIn(WithoutEveryone(userRoles), hierarchy)
    ensures var listed := SortByRank(WithoutEveryone(userRoles), WithoutEveryone(hierarchy));
      && RolesField(userRoles, hierarchy) == Some(Join(listed, ", "))
      && multiset(listed) == multiset(userRoles)[Everyone := 0]
      && (forall i :: 0 <= i < |listed| ==> listed[i] != Everyone)
      && SortedBy(listed, WithoutEveryone(hierarchy))
  {
    var names := WithoutEveryone(userRoles);
    var listed := SortByRank(names, WithoutEveryone(hierarchy));
    RankedIffInHierarchy(names, hierarchy);
    forall i | 0 <= i < |listed|
      ensures listed[i] != Everyone
    {
      assert listed[i] in multiset(names);
    }
  }

  // ---------------------------------------------------------------------------
  // Online count of `serverinfo` (general.py:229-231)
  // ---------------------------------------------------------------------------

  datatype Status = Online | Offline | Idle | Dnd | Invisible

  predicate IsOnline(s: Status) {
    s == Online || s == Idle
  }

  /** The number of members whose status is online or idle */
  function OnlineCount(statuses: seq<Status>): (n: nat)
    ensures n <= |statuses|
    ensures n == |statuses| <==> forall i :: 0 <= i < |statuses| ==> IsOnline(statuses[i])
    ensures n == 0 <==> forall i :: 0 <= i < |statuses| ==> !IsOnline(statuses[i])
  {
    if statuses == [] then 0
    else
      var init := statuses[..|statuses| - 1];
      var n := OnlineCount(init);
      assert forall i :: 0 <= i < |init| ==> init[i] == statuses[i];
      n + (if IsOnline(statuses[|statuses| - 1]) then 1 else 0)
  }

  /** Counting two groups of members separately and adding gives the count of all of them */
  lemma {:induction false} OnlineCountAppend(a: seq<Status>, b: seq<Status>)
    ensures OnlineCount(a + b) == OnlineCount(a) + OnlineCount(b)
  {
    if b != [] {
      var init := b[..|b| - 1];
      OnlineCountAppend(a, init);
      assert (a + b)[..|a + b| - 1] == a + init;
    } else {
      assert a + b == a;
    }
  }
}
