/** The tag part of an InfluxDB line: escaping, sorting and joining; and reading it back. */
module Tags {
  import opened Wrappers
  import opened Order

  // ----- escaping

  /** `str::replace` of one character by a string. */
  function Replace(s: string, c: char, text: string): string {
    if s == "" then "" else (if s[0] == c then text else [s[0]]) + Replace(s[1..], c, text)
  }

  function EscapeTag(s: string): string {
    Replace(Replace(Replace(s, ',', "\\,"), '=', "\\="), ' ', "\\ ")
  }

  predicate Special(c: char) {
    c == ',' || c == '=' || c == ' '
  }

  /** One character, escaped if it is special. */
  function EscapeChar(c: char): string {
    if Special(c) then ['\\', c] else [c]
  }

  /** Escaping in a single pass. */
  function Escape(s: string): string {
    if s == "" then "" else EscapeChar(s[0]) + Escape(s[1..])
  }

  lemma {:induction false} ReplaceConcat(a: string, b: string, c: char, text: string)
    ensures Replace(a + b, c, text) == Replace(a, c, text) + Replace(b, c, text)
  {
    if a == "" {
      assert a + b == b;
      assert "" + Replace(b, c, text) == Replace(b, c, text);
    } else {
      var first := if a[0] == c then text else [a[0]];
      ReplaceConcat(a[1..], b, c, text);
      assert (a + b)[0] == a[0] && (a + b)[1..] == a[1..] + b;
      assert first + (Replace(a[1..], c, text) + Replace(b, c, text)) ==
             first + Replace(a[1..], c, text) + Replace(b, c, text);
    }
  }

  lemma ReplaceOne(d: char, c: char, text: string)
    ensures Replace([d], c, text) == if d == c then text else [d]
  {
  }

  lemma ReplaceEscaped(d: char, c: char, text: string)
    requires c != '\\' && c != d
    ensures Replace(['\\', d], c, text) == ['\\', d]
  {
    assert ['\\', d][1..] == [d];
    ReplaceOne(d, c, text);
  }

  lemma EscapeTagChar(c: char)
    ensures EscapeTag([c]) == EscapeChar(c)
  {
    ReplaceOne(c, ',', "\\,");
    if c == ',' {
      ReplaceEscaped(',', '=', "\\=");
      ReplaceEscaped(',', ' ', "\\ ");
    } else {
      ReplaceOne(c, '=', "\\=");
      if c == '=' {
        ReplaceEscaped('=', ' ', "\\ ");
      } else {
        ReplaceOne(c, ' ', "\\ ");
      }
    }
  }

  /** The three successive replacements are one single pass: none touches what another has inserted. */
  lemma {:induction false} EscapeIsSinglePass(s: string)
    ensures EscapeTag(s) == Escape(s)
  {
    if s != "" {
      var head, tail := [s[0]], s[1..];
      assert s == head + tail;
      ReplaceConcat(head, tail, ',', "\\,");
      var h1, t1 := Replace(head, ',', "\\,"), Replace(tail, ',', "\\,");
      ReplaceConcat(h1, t1, '=', "\\=");
      ReplaceConcat(Replace(h1, '=', "\\="), Replace(t1, '=', "\\="), ' ', "\\ ");
      EscapeTagChar(s[0]);
      EscapeIsSinglePass(tail);
    }
  }

  /** Escaping, character by character: a comma, an equals sign or a space gets a backslash in front. */
  lemma EscapeIs(a: string, b: string, c: char)
    ensures EscapeTag("") == ""
    ensures EscapeTag([c]) == if c == ',' || c == '=' || c == ' ' then ['\\', c] else [c]
    ensures EscapeTag(a + b) == EscapeTag(a) + EscapeTag(b)
  {
    EscapeTagChar(c);
    EscapeIsSinglePass(a);
    EscapeIsSinglePass(b);
    EscapeIsSinglePass(a + b);
    EscapeConcat(a, b);
  }

  lemma {:induction false} EscapeConcat(a: string, b: string)
    ensures Escape(a + b) == Escape(a) + Escape(b)
  {
    if a == "" {
      assert a + b == b;
      assert "" + Escape(b) == Escape(b);
    } else {
      EscapeConcat(a[1..], b);
      assert (a + b)[0] == a[0] && (a + b)[1..] == a[1..] + b;
      Assoc(EscapeChar(a[0]), Escape(a[1..]), Escape(b));
    }
  }

  lemma Assoc(a: string, b: string, c: string)
    ensures a + (b + c) == a + b + c
  {
  }

  /** A backslash before a special character stands for that character; any other is itself. */
  function Unescape(s: string): string
    decreases |s|
  {
    if s == "" then ""
    else if s[0] == '\\' && |s| > 1 && Special(s[1]) then [s[1]] + Unescape(s[2..])
    else [s[0]] + Unescape(s[1..])
  }

  lemma {:induction false} UnescapeEscape(s: string)
    ensures Unescape(Escape(s)) == s
  {
    if s != "" {
      UnescapeEscape(s[1..]);
      var e := Escape(s[1..]);
      if Special(s[0]) {
        assert Escape(s)[2..] == e;
      } else {
        assert Escape(s)[1..] == e;
        assert s[1..] != "" ==> e[0] == EscapeChar(s[1])[0];
      }
    }
  }

  lemma EscapeInjective(a: string, b: string)
    requires EscapeTag(a) == EscapeTag(b)
    ensures a == b
  {
    EscapeIsSinglePass(a);
    EscapeIsSinglePass(b);
    UnescapeEscape(a);
    UnescapeEscape(b);
  }

  // ----- splitting at characters not preceded by a backslash

  predicate EndsInBackslash(s: string) {
    s != "" && s[|s| - 1] == '\\'
  }

  /** The pieces of `s` between unescaped separators; `escaped` says whether a backslash came just before. */
  function Split(s: string, sep: char, escaped: bool): (pieces: seq<string>)
    ensures pieces != []
  {
    if s == "" then [""]
    else if s[0] == sep && !escaped then [""] + Split(s[1..], sep, false)
    else
      var rest := Split(s[1..], sep, s[0] == '\\');
      [[s[0]] + rest[0]] + rest[1..]
  }

  /** No separator in `s` would split it. */
  predicate Unsplit(s: string, sep: char, escaped: bool) {
    s == "" || ((s[0] == sep ==> escaped) && Unsplit(s[1..], sep, s[0] == '\\'))
  }

  /** Whether a backslash comes just before whatever follows `s`. */
  predicate After(s: string, escaped: bool) {
    if s == "" then escaped else EndsInBackslash(s)
  }

  /** An unsplit prefix only lengthens the first piece. */
  lemma {:induction false} SplitPrefix(s: string, rest: string, sep: char, escaped: bool)
    requires sep != '\\' && Unsplit(s, sep, escaped)
    ensures var r := Split(rest, sep, After(s, escaped));
            Split(s + rest, sep, escaped) == [s + r[0]] + r[1..]
  {
    if s == "" {
      assert s + rest == rest;
      var r := Split(rest, sep, escaped);
      assert s + r[0] == r[0] && [r[0]] + r[1..] == r;
    } else {
      SplitPrefix(s[1..], rest, sep, s[0] == '\\');
      assert (s + rest)[1..] == s[1..] + rest;
      assert After(s[1..], s[0] == '\\') == After(s, escaped);
      LongerFirst(s, Split(rest, sep, After(s, escaped)));
    }
  }

  lemma LongerFirst(s: string, pieces: seq<string>)
    requires s != "" && pieces != []
    ensures var rest := [s[1..] + pieces[0]] + pieces[1..];
            [[s[0]] + rest[0]] + rest[1..] == [s + pieces[0]] + pieces[1..]
  {
    assert [s[0]] + (s[1..] + pieces[0]) == s + pieces[0];
    assert ([s[1..] + pieces[0]] + pieces[1..])[1..] == pieces[1..];
  }

  lemma {:induction false} UnsplitConcat(a: string, b: string, sep: char, escaped: bool)
    requires Unsplit(a, sep, escaped) && Unsplit(b, sep, After(a, escaped))
    ensures Unsplit(a + b, sep, escaped)
  {
    if a == "" {
      assert a + b == b;
    } else {
      UnsplitConcat(a[1..], b, sep, a[0] == '\\');
      assert (a + b)[1..] == a[1..] + b;
      assert After(a[1..], a[0] == '\\') == After(a, escaped);
    }
  }

  lemma EscapeCharUnsplit(c: char, sep: char, escaped: bool)
    requires Special(sep)
    ensures Unsplit(EscapeChar(c), sep, escaped)
    ensures After(EscapeChar(c), escaped) <==> c == '\\'
  {
  }

  /** Escaped text holds no separator, and ends as the text ends. */
  lemma {:induction false} EscapeUnsplit(s: string, sep: char, escaped: bool)
    requires Special(sep)
    ensures Unsplit(Escape(s), sep, escaped)
    ensures EndsInBackslash(Escape(s)) <==> EndsInBackslash(s)
    ensures Escape(s) == "" <==> s == ""
  {
    if s != "" {
      var e := Escape(s[1..]);
      EscapeCharUnsplit(s[0], sep, escaped);
      EscapeUnsplit(s[1..], sep, s[0] == '\\');
      UnsplitConcat(EscapeChar(s[0]), e, sep, escaped);
    }
  }

  // ----- one tag

  type Tag = (string, string)

  function Part(t: Tag): string {
    EscapeTag(t.0) + "=" + EscapeTag(t.1)
  }

  /** Reading one tag back: exactly one unescaped equals sign. */
  function ReadPart(p: string): Option<Tag> {
    var pieces := Split(p, '=', false);
    if |pieces| == 2 then Some((Unescape(pieces[0]), Unescape(pieces[1]))) else None
  }

  lemma SplitWhole(s: string, sep: char, escaped: bool)
    requires sep != '\\' && Unsplit(s, sep, escaped)
    ensures Split(s, sep, escaped) == [s]
  {
    SplitPrefix(s, "", sep, escaped);
    assert s + "" == s;
  }

  /** A printed tag is split at its equals sign, unless that follows a backslash. */
  lemma SplitPart(k: string, v: string)
    requires Unsplit(k, '=', false) && Unsplit(v, '=', false) && Unsplit(v, '=', true)
    ensures Split(k + ("=" + v), '=', false) == if EndsInBackslash(k) then [k + ("=" + v)] else [k, v]
  {
    var rest := "=" + v;
    assert rest[1..] == v;
    SplitPrefix(k, rest, '=', false);
    SplitWhole(v, '=', false);
    if EndsInBackslash(k) {
      assert Split(rest, '=', true) == [rest];
    } else {
      assert Split(rest, '=', false) == [""] + [v];
      assert k + "" == k;
    }
  }

  /** A tag is read back exactly when its key does not end in a backslash. */
  lemma PartRoundTrip(t: Tag)
    ensures ReadPart(Part(t)) == if EndsInBackslash(t.0) then None else Some(t)
  {
    var k, v := Escape(t.0), Escape(t.1);
    EscapeIsSinglePass(t.0);
    EscapeIsSinglePass(t.1);
    assert Part(t) == k + ("=" + v);
    EscapeUnsplit(t.0, '=', false);
    EscapeUnsplit(t.1, '=', false);
    EscapeUnsplit(t.1, '=', true);
    SplitPart(k, v);
    UnescapeEscape(t.0);
    UnescapeEscape(t.1);
  }

  /** A tag is not split at commas, and what follows it is escaped exactly when its value ends in a backslash. */
  lemma PartUnsplit(t: Tag)
    ensures Unsplit(Part(t), ',', false)
    ensures EndsInBackslash(Part(t)) <==> EndsInBackslash(t.1)
    ensures Part(t) != ""
  {
    EscapeIsSinglePass(t.0);
    EscapeIsSinglePass(t.1);
    EscapeUnsplit(t.0, ',', false);
    EscapeUnsplit(t.1, ',', false);
    assert Unsplit("=", ',', After(Escape(t.0), false)) by { assert "="[1..] == ""; }
    UnsplitConcat(Escape(t.0), "=", ',', false);
    UnsplitConcat(Escape(t.0) + "=", Escape(t.1), ',', false);
  }

  // ----- many tags

  /** `parts.join(",")`. */
  function Join(parts: seq<string>): string {
    if parts == [] then "" else if |parts| == 1 then parts[0] else parts[0] + "," + Join(parts[1..])
  }

  function Parts(ts: seq<Tag>): (ps: seq<string>)
    ensures |ps| == |ts| && forall i :: 0 <= i < |ts| ==> ps[i] == Part(ts[i])
  {
    Map(Part, ts)
  }

  /** No comma follows a backslash: no value but the last ends in one. */
  predicate CommasStand(ts: seq<Tag>) {
    forall i :: 0 <= i < |ts| - 1 ==> !EndsInBackslash(ts[i].1)
  }

  /** One more part in front: its comma stands unless it follows a backslash. */
  lemma SplitFirst(t: Tag, rest: string)
    ensures var pieces := Split(rest, ',', false);
            if EndsInBackslash(t.1) then |Split(Part(t) + ("," + rest), ',', false)| == |pieces|
            else Split(Part(t) + ("," + rest), ',', false) == [Part(t)] + pieces
  {
    var p := Part(t);
    PartUnsplit(t);
    SplitPrefix(p, "," + rest, ',', false);
    assert ("," + rest)[1..] == rest;
    if !EndsInBackslash(t.1) {
      var pieces := Split(rest, ',', false);
      assert Split("," + rest, ',', false) == [""] + pieces;
      assert p + "" == p;
      assert ([""] + pieces)[1..] == pieces;
    }
  }

  lemma CommasStandCons(t: Tag, ts: seq<Tag>)
    requires ts != []
    ensures CommasStand([t] + ts) <==> !EndsInBackslash(t.1) && CommasStand(ts)
  {
    var all := [t] + ts;
    assert all[0] == t && forall i :: 0 <= i < |ts| ==> all[i + 1] == ts[i];
  }

  /** Splitting the joined parts gives them back, or fewer pieces if some comma follows a backslash. */
  lemma {:induction false} SplitJoin(ts: seq<Tag>)
    requires ts != []
    ensures CommasStand(ts) ==> Split(Join(Parts(ts)), ',', false) == Parts(ts)
    ensures !CommasStand(ts) ==> |Split(Join(Parts(ts)), ',', false)| < |ts|
    decreases |ts|
  {
    var t, tail := ts[0], ts[1..];
    assert ts == [t] + tail;
    if |ts| == 1 {
      PartUnsplit(t);
      SplitWhole(Part(t), ',', false);
    } else {
      MapCons(Part, t, tail);
      JoinCons(Part(t), Parts(tail));
      SplitJoin(tail);
      SplitFirst(t, Join(Parts(tail)));
      CommasStandCons(t, tail);
    }
  }

  lemma JoinCons(p: string, ps: seq<string>)
    requires ps != []
    ensures Join([p] + ps) == p + ("," + Join(ps))
  {
    assert ([p] + ps)[1..] == ps;
    Assoc(p, ",", Join(ps));
  }

  /** Every piece read as a tag, if all of them can be. */
  function ReadParts(ps: seq<string>): Option<seq<Tag>> {
    if ps == [] then Some([])
    else
      var head, tail := ReadPart(ps[0]), ReadParts(ps[1..]);
      if head.Some? && tail.Some? then Some([head.value] + tail.value) else None
  }

  lemma {:induction false} ReadPartsLength(ps: seq<string>)
    ensures ReadParts(ps).Some? ==> |ReadParts(ps).value| == |ps|
  {
    if ps != [] {
      ReadPartsLength(ps[1..]);
    }
  }

  predicate KeysStand(ts: seq<Tag>) {
    forall i :: 0 <= i < |ts| ==> !EndsInBackslash(ts[i].0)
  }

  lemma KeysStandCons(t: Tag, ts: seq<Tag>)
    ensures KeysStand([t] + ts) <==> !EndsInBackslash(t.0) && KeysStand(ts)
  {
    var all := [t] + ts;
    assert all[0] == t && forall i :: 0 <= i < |ts| ==> all[i + 1] == ts[i];
  }

  lemma {:induction false} ReadPartsOf(ts: seq<Tag>)
    ensures ReadParts(Parts(ts)) == if KeysStand(ts) then Some(ts) else None
    decreases |ts|
  {
    if ts != [] {
      var t, tail := ts[0], ts[1..];
      assert ts == [t] + tail;
      ReadPartsOf(tail);
      PartRoundTrip(t);
      MapCons(Part, t, tail);
      assert Parts(ts)[0] == Part(t) && Parts(ts)[1..] == Parts(tail);
      KeysStandCons(t, tail);
    }
  }

  /** The printed tags, each after a comma. */
  function Text(ts: seq<Tag>): string {
    if ts == [] then "" else "," + Join(Parts(ts))
  }

  function ReadTags(s: string): Option<seq<Tag>> {
    if s == "" then Some([])
    else if s[0] != ',' then None
    else ReadParts(Split(s[1..], ',', false))
  }

  /** Exactly when printing keeps the tags apart: no key, and no value before another tag, ends in a backslash. */
  lemma RoundTrip(ts: seq<Tag>)
    ensures ReadTags(Text(ts)) == Some(ts) <==> KeysStand(ts) && CommasStand(ts)
  {
    if ts != [] {
      assert Text(ts)[1..] == Join(Parts(ts));
      SplitJoin(ts);
      if CommasStand(ts) {
        ReadPartsOf(ts);
      } else {
        ReadPartsLength(Split(Join(Parts(ts)), ',', false));
      }
    }
  }

  // ----- what an InfluxDB line may hold

  /** A space ends the tags of a line unless a backslash comes before it. */
  predicate NoBareSpace(s: string) {
    forall i :: 0 <= i < |s| && s[i] == ' ' ==> i > 0 && s[i - 1] == '\\'
  }

  lemma NoBareConcat(a: string, b: string)
    requires NoBareSpace(a) && NoBareSpace(b)
    ensures NoBareSpace(a + b)
  {
  }

  lemma {:induction false} EscapedHasNoBareSpace(s: string)
    ensures NoBareSpace(EscapeTag(s))
  {
    if s != "" {
      EscapeIs([s[0]], s[1..], s[0]);
      assert s == [s[0]] + s[1..];
      EscapedHasNoBareSpace(s[1..]);
      NoBareConcat(EscapeTag([s[0]]), EscapeTag(s[1..]));
    }
  }

  lemma {:induction false} JoinedHasNoBareSpace(parts: seq<string>)
    requires forall p :: p in parts ==> NoBareSpace(p)
    ensures NoBareSpace(Join(parts))
  {
    if |parts| > 1 {
      JoinedHasNoBareSpace(parts[1..]);
      NoBareConcat(parts[0], ",");
      NoBareConcat(parts[0] + ",", Join(parts[1..]));
    }
  }

  /** Printed tags never end a line early: every space in them follows a backslash. */
  lemma PrintedHasNoBareSpace(ts: seq<Tag>)
    ensures NoBareSpace(Text(ts))
  {
    forall p | p in Parts(ts) ensures NoBareSpace(p) {
      var i :| 0 <= i < |ts| && Parts(ts)[i] == p;
      var t := ts[i];
      EscapedHasNoBareSpace(t.0);
      EscapedHasNoBareSpace(t.1);
      NoBareConcat(EscapeTag(t.0), "=");
      NoBareConcat(EscapeTag(t.0) + "=", EscapeTag(t.1));
    }
    if ts != [] {
      JoinedHasNoBareSpace(Parts(ts));
      NoBareConcat(",", Join(Parts(ts)));
    }
  }

  /** The layout, comma by comma: a tag is `key=value`, and each one printed follows a comma. */
  lemma PrintedIs(ts: seq<Tag>, t: Tag)
    ensures Text([]) == ""
    ensures Text(ts + [t]) == Text(ts) + ("," + (EscapeTag(t.0) + "=" + EscapeTag(t.1)))
  {
    TextLast(ts, t);
  }

  // ----- a map of tags

  /** The tags of a map with a value, in some order, each once. */
  predicate Lists(ts: seq<Tag>, tags: map<string, string>) {
    && (forall i, j :: 0 <= i < j < |ts| ==> ts[i] != ts[j])
    && (forall t :: t in ts ==> t.0 in tags && tags[t.0] == t.1 && t.1 != "")
    && (forall k :: k in tags && tags[k] != "" ==> (k, tags[k]) in ts)
  }

  lemma {:induction false} CountOnce(ts: seq<Tag>, t: Tag)
    requires forall i, j :: 0 <= i < j < |ts| ==> ts[i] != ts[j]
    ensures multiset(ts)[t] == if t in ts then 1 else 0
  {
    if ts != [] {
      CountOnce(ts[1..], t);
      assert ts == [ts[0]] + ts[1..];
    }
  }

  lemma ListsSame(xs: seq<Tag>, ys: seq<Tag>, tags: map<string, string>)
    requires Lists(xs, tags) && Lists(ys, tags)
    ensures multiset(xs) == multiset(ys)
  {
    forall t ensures multiset(xs)[t] == multiset(ys)[t] {
      CountOnce(xs, t);
      CountOnce(ys, t);
      assert t in xs <==> t in ys;
    }
  }

  /** The tags of a listing in the order in which they are printed. */
  function Arranged(ts: seq<Tag>): seq<Tag> {
    Arrange(Part, ts)
  }

  /** The tag string of a map, the map being iterated in any order. */
  method BuildTagStr(tags: map<string, string>) returns (text: string)
    ensures forall ts :: Lists(ts, tags) ==> text == Text(Arranged(ts))
    ensures exists ts :: Lists(ts, tags)
    ensures NoBareSpace(text)
    ensures text == "" <==> forall k :: k in tags ==> tags[k] == ""
  {
    var listed: seq<Tag> := [];
    var left := tags.Keys;
    while left != {}
      invariant left <= tags.Keys
      invariant forall i, j :: 0 <= i < j < |listed| ==> listed[i] != listed[j]
      invariant forall t :: t in listed ==> t.0 in tags - left && tags[t.0] == t.1 && t.1 != ""
      invariant forall k :: k in tags && k !in left && tags[k] != "" ==> (k, tags[k]) in listed
      decreases left
    {
      var k :| k in left;
      left := left - {k};
      if tags[k] != "" {
        listed := listed + [(k, tags[k])];
      }
    }
    assert Lists(listed, tags);
    var parts := Parts(listed);
    var sorted := Sort(parts);
    if sorted == [] {
      text := "";
    } else {
      text := "," + Join(sorted);
    }
    forall ts | Lists(ts, tags) ensures text == Text(Arranged(ts)) {
      ListsSame(listed, ts, tags);
      AnySortArranges(Part, listed, ts, sorted);
    }
    PrintedHasNoBareSpace(Arranged(listed));
    assert multiset(sorted) == multiset(parts) ==> |sorted| == |multiset(parts)| == |listed|;
    assert listed != [] ==> listed[0] in listed;
  }

  // ----- the line

  const SYSCALLS: seq<string> := ["write", "writev", "send", "sendto", "sendmsg", "sendmmsg", "read", "readv", "recv",
                                  "recvfrom", "recvmsg", "recvmmsg"]

  lemma {:induction false} JoinLast(ps: seq<string>, p: string)
    requires ps != []
    ensures Join(ps + [p]) == Join(ps) + "," + p
  {
    if |ps| > 1 {
      JoinLast(ps[1..], p);
      assert (ps + [p])[1..] == ps[1..] + [p];
    }
  }

  lemma {:induction false} PlainEscape(s: string)
    requires forall i :: 0 <= i < |s| ==> !Special(s[i])
    ensures Escape(s) == s
  {
    if s != "" {
      PlainEscape(s[1..]);
    }
  }

  predicate Plain(s: string) {
    s != "" && !EndsInBackslash(s) && forall i :: 0 <= i < |s| ==> !Special(s[i])
  }

  lemma PlainPart(key: string, value: string)
    requires Plain(key) && Plain(value)
    ensures Part((key, value)) == key + "=" + value
  {
    EscapeIsSinglePass(key);
    EscapeIsSinglePass(value);
    PlainEscape(key);
    PlainEscape(value);
  }

  lemma Regroup(joined: string, part: string)
    ensures "," + (joined + "," + part) == ("," + joined) + ("," + part)
  {
  }

  lemma TextLast(ts: seq<Tag>, last: Tag)
    ensures Text(ts + [last]) == Text(ts) + ("," + Part(last))
  {
    MapConcat(Part, ts, [last]);
    assert Parts([last]) == [Part(last)];
    if ts == [] {
      assert ts + [last] == [last];
    } else {
      JoinLast(Parts(ts), Part(last));
      Regroup(Join(Parts(ts)), Part(last));
    }
  }

  /** Appending a tag that needs no escaping is printing one more tag. */
  lemma AppendIsText(ts: seq<Tag>, key: string, value: string)
    requires Plain(key) && Plain(value)
    ensures Text(ts) + ("," + (key + "=" + value)) == Text(ts + [(key, value)])
  {
    PlainPart(key, value);
    TextLast(ts, (key, value));
  }

  const SYSCALL_KEY := "syscall"

  /** The tags of a line: those of the map, then the syscall. */
  function LineTags(ts: seq<Tag>, syscall: string): string {
    Text(ts) + ("," + (SYSCALL_KEY + "=" + syscall))
  }

  /** The line's tags are read back as they were exactly when no key and no value ends in a backslash. */
  lemma LineRoundTrip(ts: seq<Tag>, syscall: string)
    requires Plain(syscall)
    ensures ReadTags(LineTags(ts, syscall)) == Some(ts + [("syscall", syscall)]) <==>
            forall i :: 0 <= i < |ts| ==> !EndsInBackslash(ts[i].0) && !EndsInBackslash(ts[i].1)
  {
    var all := ts + [(SYSCALL_KEY, syscall)];
    AppendIsText(ts, SYSCALL_KEY, syscall);
    RoundTrip(all);
    StandAppend(ts, (SYSCALL_KEY, syscall));
  }

  lemma StandAppend(ts: seq<Tag>, last: Tag)
    requires !EndsInBackslash(last.0)
    ensures KeysStand(ts + [last]) && CommasStand(ts + [last]) <==>
            forall i :: 0 <= i < |ts| ==> !EndsInBackslash(ts[i].0) && !EndsInBackslash(ts[i].1)
  {
    var all := ts + [last];
    assert forall i :: 0 <= i < |ts| ==> all[i] == ts[i];
    assert all[|ts|] == last;
  }

  /** From the map to the line and back: every tag with a value comes back, once, in print order, exactly
      when none of them has a key or a value ending in a backslash. */
  lemma MapRoundTrip(tags: map<string, string>, ts: seq<Tag>, syscall: string)
    requires Lists(ts, tags) && Plain(syscall)
    ensures Lists(Arranged(ts), tags)
    ensures ReadTags(LineTags(Arranged(ts), syscall)) == Some(Arranged(ts) + [("syscall", syscall)]) <==>
            forall k :: k in tags && tags[k] != "" ==> !EndsInBackslash(k) && !EndsInBackslash(tags[k])
  {
    var out := Arranged(ts);
    LineRoundTrip(out, syscall);
    forall t ensures t in out <==> t in ts {
      assert t in multiset(out) <==> t in multiset(ts);
    }
    forall i, j | 0 <= i < j < |out| ensures out[i] != out[j] {
      CountOnce(ts, out[i]);
      if out[i] == out[j] {
        CountTwice(out, i, j);
      }
    }
    assert forall i :: 0 <= i < |out| ==> out[i] in out;
  }

  lemma CountTwice(ts: seq<Tag>, i: nat, j: nat)
    requires i < j < |ts| && ts[i] == ts[j]
    ensures multiset(ts)[ts[i]] >= 2
  {
    assert ts == ts[..j] + ts[j..];
    assert ts[..j][i] == ts[i] && ts[j..][0] == ts[j];
  }

  /** The known syscall names qualify. */
  lemma SyscallsArePlain(k: nat)
    requires k < |SYSCALLS|
    ensures Plain(SYSCALLS[k])
  {
  }

  /** So for every syscall the program knows, the line's tags come back exactly when none ends in a backslash. */
  lemma KnownSyscallRoundTrip(tags: map<string, string>, ts: seq<Tag>, k: nat)
    requires Lists(ts, tags) && k < |SYSCALLS|
    ensures ReadTags(LineTags(Arranged(ts), SYSCALLS[k])) == Some(Arranged(ts) + [("syscall", SYSCALLS[k])]) <==>
            forall key :: key in tags && tags[key] != "" ==> !EndsInBackslash(key) && !EndsInBackslash(tags[key])
  {
    SyscallsArePlain(k);
    MapRoundTrip(tags, ts, SYSCALLS[k]);
  }
}
