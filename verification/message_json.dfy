/** The one-line JSON format in which a Message is appended to messages.json,
    and the field extractor that reads such lines back. The format is string
    splicing, not a JSON encoder: double quotes in the hash, recipient and
    body are preceded by a backslash, the type is written as it is, and the
    extractor takes the text from `"field":"` up to the next double quote
    whatever precedes it. */
module MessageJson {
  import opened JavaStrings

  /** The four fields a stored line carries. */
  datatype StoredRecord = StoredRecord(messageHash: string, recipient: string, message: string, messageType: string)

  /** `s.replace("\"", "\\\"")`: every double quote gets a backslash before it. */
  function EscapeQuotes(s: string): (r: string)
    ensures QuoteFree(s) ==> r == s
  {
    if s == [] then []
    else (if s[0] == Quote then "\\\"" else [s[0]]) + EscapeQuotes(s[1..])
  }

  /** The text `"field":"` that the extractor searches for. */
  function KeyPattern(field: string): string
  {
    "\"" + field + "\":\""
  }

  /** One `"key":"value"` member of the line. */
  function Member(key: string, value: string): string
  {
    KeyPattern(key) + value + "\""
  }

  /** The line `storeMessageToJson` appends (without its line separator). */
  function EncodeLine(rec: StoredRecord): (line: string)
  {
    "{"
    + Member("messageHash", EscapeQuotes(rec.messageHash)) + ","
    + Member("recipient", EscapeQuotes(rec.recipient)) + ","
    + Member("message", EscapeQuotes(rec.message)) + ","
    + Member("messageType", rec.messageType)
    + "}"
  }

  /** `extractJsonField(json, field)`: the text between the first `"field":"`
      and the next double quote; "" when the key is absent, when no quote
      follows, or when the value is empty. Since the result holds no quote
      and is followed by one right after the first key, it is the whole
      stretch up to the next quote; it is empty only when that stretch is. */
  function ExtractJsonField(json: string, field: string): (r: string)
    ensures QuoteFree(r)
    ensures IndexOf(json, KeyPattern(field), 0) == -1 ==> r == ""
    ensures var start := IndexOf(json, KeyPattern(field), 0);
      start != -1 && r != "" ==> MatchesAt(json, KeyPattern(field) + r + "\"", start)
    ensures var start := IndexOf(json, KeyPattern(field), 0);
      var from := start + |KeyPattern(field)|;
      start != -1 && from < |json| && json[from] != Quote && Quote in json[from..] ==> r != ""
  {
    var search := KeyPattern(field);
    var start := IndexOf(json, search, 0);
    if start == -1 then ""
    else
      var from := start + |search|;
      var end := IndexOf(json, "\"", from);
      if end > from then
        ValueFollowsKey(json, search, start, end);
        json[from..end]
      else
        QuoteAfterValue(json, from);
        ""
  }

  /** A non-quote followed later by a quote puts the next quote past `from`. */
  lemma QuoteAfterValue(json: string, from: nat)
    ensures from < |json| && json[from] != Quote && Quote in json[from..] ==> IndexOf(json, "\"", from) > from
  {
    if from < |json| && json[from] != Quote && Quote in json[from..] {
      var k :| 0 <= k < |json[from..]| && json[from..][k] == Quote;
      assert MatchesAt(json, "\"", from + k) by {
        assert json[from + k..from + k + 1] == [json[from + k]];
      }
      assert !MatchesAt(json, "\"", from) by {
        assert json[from..from + 1] == [json[from]];
      }
    }
  }

  /** The value found by the extractor lies between the key and a quote. */
  lemma ValueFollowsKey(json: string, search: string, start: nat, end: int)
    requires MatchesAt(json, search, start)
    requires start + |search| < end && end == IndexOf(json, "\"", start + |search|)
    ensures QuoteFree(json[start + |search|..end])
    ensures MatchesAt(json, search + json[start + |search|..end] + "\"", start)
  {
    var from := start + |search|;
    ValueIsQuoteFree(json, from, end);
    assert json[start..from] == search;
    assert json[end..end + 1] == "\"";
    assert json[start..end + 1] == json[start..from] + json[from..end] + json[end..end + 1];
  }

  lemma ValueIsQuoteFree(json: string, from: nat, end: int)
    requires from < end && end == IndexOf(json, "\"", from)
    ensures QuoteFree(json[from..end])
  {
    forall i | from <= i < end ensures json[i] != Quote {
      assert !MatchesAt(json, "\"", i);
      assert json[i..i + 1] == [json[i]];
    }
  }

  /** No `\n` or `\r`: text that `BufferedReader.readLine` reads back as one line. */
  predicate SingleLine(s: string)
  {
    '\n' !in s && '\r' !in s
  }

  lemma {:induction false} EscapeQuotesSingleLine(s: string)
    requires SingleLine(s)
    ensures SingleLine(EscapeQuotes(s))
  {
    if s != [] {
      assert SingleLine(s[1..]) by {
        assert forall c :: c in s[1..] ==> c in s;
      }
      EscapeQuotesSingleLine(s[1..]);
    }
  }

  /** A record whose fields hold no line break is written as exactly one
      line of the file. */
  lemma EncodeLineSingleLine(rec: StoredRecord)
    requires SingleLine(rec.messageHash) && SingleLine(rec.recipient)
    requires SingleLine(rec.message) && SingleLine(rec.messageType)
    ensures SingleLine(EncodeLine(rec))
  {
    EscapeQuotesSingleLine(rec.messageHash);
    EscapeQuotesSingleLine(rec.recipient);
    EscapeQuotesSingleLine(rec.message);
    var m0 := Member("messageHash", EscapeQuotes(rec.messageHash));
    var m1 := Member("recipient", EscapeQuotes(rec.recipient));
    var m2 := Member("message", EscapeQuotes(rec.message));
    var m3 := Member("messageType", rec.messageType);
    MemberSingleLine("messageHash", EscapeQuotes(rec.messageHash));
    MemberSingleLine("recipient", EscapeQuotes(rec.recipient));
    MemberSingleLine("message", EscapeQuotes(rec.message));
    MemberSingleLine("messageType", rec.messageType);
    JoinSingleLine(m0, m1, m2, m3);
  }

  lemma MemberSingleLine(key: string, value: string)
    requires SingleLine(key) && SingleLine(value)
    ensures SingleLine(Member(key, value))
  {
  }

  lemma JoinSingleLine(m0: string, m1: string, m2: string, m3: string)
    requires SingleLine(m0) && SingleLine(m1) && SingleLine(m2) && SingleLine(m3)
    ensures SingleLine("{" + m0 + "," + m1 + "," + m2 + "," + m3 + "}")
  {
  }

  /** The per-line decoding of `readMessagesFromFile`. */
  function DecodeLine(line: string): (rec: StoredRecord)
  {
    StoredRecord(
      ExtractJsonField(line, "messageHash"),
      ExtractJsonField(line, "recipient"),
      ExtractJsonField(line, "message"),
      ExtractJsonField(line, "messageType"))
  }


  /* ------------------------------------------------------------------ */
  /* Where the search for a key can stop                                 */

  lemma KeyPatternLayout(f: string)
    ensures |KeyPattern(f)| == |f| + 4
    ensures KeyPattern(f)[0] == Quote && KeyPattern(f)[|f| + 1] == Quote
    ensures KeyPattern(f)[|f| + 2] == ':' && KeyPattern(f)[|f| + 3] == Quote
    ensures forall j :: 1 <= j <= |f| ==> KeyPattern(f)[j] == f[j - 1]
  {
  }

  lemma MemberLayout(key: string, value: string)
    ensures |Member(key, value)| == |key| + |value| + 5
    ensures Member(key, value)[0] == Quote && Member(key, value)[|key| + 1] == Quote
    ensures Member(key, value)[|key| + 2] == ':' && Member(key, value)[|key| + 3] == Quote
    ensures Member(key, value)[|key| + |value| + 4] == Quote
    ensures forall j :: 1 <= j <= |key| ==> Member(key, value)[j] == key[j - 1]
    ensures forall j :: |key| + 4 <= j < |key| + |value| + 4 ==> Member(key, value)[j] == value[j - |key| - 4]
  {
    KeyPatternLayout(key);
  }

  /** The key pattern of `f` cannot match at a quote that opens some other
      quote-free text `x`, or `f` itself followed by something else than `:`. */
  lemma NoKeyAtQuoted(s: string, i: nat, x: string, c: char, f: string)
    requires QuoteFree(x) && QuoteFree(f)
    requires i + |x| + 3 <= |s|
    requires forall q :: i + 1 <= q < i + 1 + |x| ==> s[q] == x[q - i - 1]
    requires s[i + 1 + |x|] == Quote && s[i + 2 + |x|] == c
    requires x != f || c != ':'
    ensures !MatchesAt(s, KeyPattern(f), i)
  {
    var p := KeyPattern(f);
    KeyPatternLayout(f);
    if i + |p| <= |s| {
      var d: nat;
      if |x| < |f| {
        d := 1 + |x|;
        assert p[d] == f[|x|];
      } else if |x| > |f| {
        d := 1 + |f|;
        assert s[i + d] == x[|f|];
      } else if x != f {
        var j :| 0 <= j < |x| && x[j] != f[j];
        d := 1 + j;
        assert s[i + d] == x[j];
      } else {
        d := 2 + |f|;
      }
      assert s[i..i + |p|][d] != p[d];
    }
  }

  lemma NoKeyAtNonQuote(s: string, i: nat, f: string)
    requires i < |s| && s[i] != Quote
    ensures !MatchesAt(s, KeyPattern(f), i)
  {
    var p := KeyPattern(f);
    if i + |p| <= |s| {
      assert s[i..i + |p|][0] != p[0];
    }
  }

  /** A quote followed by a character the field name cannot start with. */
  lemma NoKeyBefore(s: string, i: nat, f: string)
    requires i + 1 < |s| && f != [] && s[i + 1] != f[0]
    ensures !MatchesAt(s, KeyPattern(f), i)
  {
    var p := KeyPattern(f);
    if i + |p| <= |s| {
      assert s[i..i + |p|][1] != p[1];
    }
  }

  /** A member whose key is not `f` is passed over by the search for `f`. */
  lemma SkipMember(s: string, at: nat, key: string, value: string, f: string)
    requires QuoteFree(key) && QuoteFree(value) && QuoteFree(f) && key != f
    requires f != [] && f[0] != ':' && f[0] != ','
    requires at + |Member(key, value)| + 1 <= |s|
    requires s[at..at + |Member(key, value)| + 1] == Member(key, value) + ","
    ensures IndexOf(s, KeyPattern(f), at) == IndexOf(s, KeyPattern(f), at + |Member(key, value)| + 1)
  {
    var p := KeyPattern(f);
    var m := Member(key, value) + ",";
    var k, v := |key|, |value|;
    MemberLayout(key, value);
    forall q | at <= q < at + |m| ensures s[q] == m[q - at] {
      assert s[at..at + |m|][q - at] == s[q];
    }
    forall q: nat | at <= q < at + |m| ensures !MatchesAt(s, p, q) {
      if q == at {
        NoKeyAtQuoted(s, at, key, ':', f);
      } else if q <= at + k {
        assert s[q] == key[q - at - 1];
        NoKeyAtNonQuote(s, q, f);
      } else if q == at + k + 1 {
        NoKeyBefore(s, q, f);
      } else if q == at + k + 2 {
        NoKeyAtNonQuote(s, q, f);
      } else if q == at + k + 3 {
        NoKeyAtQuoted(s, q, value, ',', f);
      } else if q < at + k + v + 4 {
        assert s[q] == value[q - at - k - 4];
        NoKeyAtNonQuote(s, q, f);
      } else if q == at + k + v + 4 {
        NoKeyBefore(s, q, f);
      } else {
        NoKeyAtNonQuote(s, q, f);
      }
    }
    IndexOfSkip(s, p, at, at + |m|);
  }

  /** The extractor's result once both searches are known. */
  lemma ExtractBetween(json: string, field: string, start: nat, end: nat)
    requires IndexOf(json, KeyPattern(field), 0) == start
    requires start + |KeyPattern(field)| <= end
    requires IndexOf(json, "\"", start + |KeyPattern(field)|) == end
    ensures ExtractJsonField(json, field) == json[start + |KeyPattern(field)|..end]
  {
    var from := start + |KeyPattern(field)|;
    var r := ExtractJsonField(json, field);
    if end == from {
      assert r == [];
    } else {
      assert r == json[from..end];
    }
  }

  /** The search for `f` stops at `at`, where the key is followed by `w` and a quote. */
  lemma ExtractAt(s: string, at: nat, f: string, w: string)
    requires QuoteFree(w) && f != []
    requires IndexOf(s, KeyPattern(f), 0) == IndexOf(s, KeyPattern(f), at)
    requires at + |KeyPattern(f)| + |w| + 1 <= |s|
    requires s[at..at + |KeyPattern(f)| + |w| + 1] == KeyPattern(f) + w + "\""
    ensures ExtractJsonField(s, f) == w
  {
    var p := KeyPattern(f);
    var from := at + |p|;
    var end := from + |w|;
    SplitKeyValue(s, at, p, w);
    IndexOfAtMatch(s, p, at);
    forall q | from <= q < end ensures s[q] != Quote {
      assert s[q] == s[from..end][q - from];
    }
    IndexOfChar(s, Quote, from, end);
    ExtractBetween(s, f, at, end);
  }

  /** The three pieces of a key, a value and its closing quote. */
  lemma SplitKeyValue(s: string, at: nat, p: string, w: string)
    requires at + |p| + |w| + 1 <= |s| && s[at..at + |p| + |w| + 1] == p + w + "\""
    ensures s[at..at + |p|] == p
    ensures s[at + |p|..at + |p| + |w|] == w
    ensures s[at + |p| + |w|] == Quote
  {
    var t := s[at..at + |p| + |w| + 1];
    assert t[..|p|] == p;
    assert t[|p|..|p| + |w|] == w;
    assert t[|p| + |w|] == Quote;
    assert s[at..at + |p|] == t[..|p|];
    forall q | 0 <= q < |w| ensures s[at + |p|..at + |p| + |w|][q] == w[q] {
      assert t[|p| + q] == s[at + |p| + q];
    }
  }

  lemma {:induction false} EscapeQuotesAppend(a: string, b: string)
    ensures EscapeQuotes(a + b) == EscapeQuotes(a) + EscapeQuotes(b)
  {
    if a != [] {
      var head := if a[0] == Quote then "\\\"" else [a[0]];
      calc {
        EscapeQuotes(a + b);
        { assert (a + b)[0] == a[0] && (a + b)[1..] == a[1..] + b; }
        head + EscapeQuotes(a[1..] + b);
        { EscapeQuotesAppend(a[1..], b); }
        head + (EscapeQuotes(a[1..]) + EscapeQuotes(b));
        (head + EscapeQuotes(a[1..])) + EscapeQuotes(b);
      }
    } else {
      assert a + b == b;
    }
  }

  /* ------------------------------------------------------------------ */
  /* Round trip                                                          */

  /** A key the extractor can find unambiguously: non-empty, quote-free, and
      not starting with the characters that follow a closing quote. */
  predicate PlainKey(k: string)
  {
    k != [] && QuoteFree(k) && k[0] != ':' && k[0] != ','
  }

  /** Members separated by commas. */
  function JoinMembers(pairs: seq<(string, string)>): string
    requires |pairs| > 0
  {
    if |pairs| == 1 then Member(pairs[0].0, pairs[0].1)
    else Member(pairs[0].0, pairs[0].1) + "," + JoinMembers(pairs[1..])
  }

  /** The key/value pairs written for a record, values escaped. */
  function Pairs(rec: StoredRecord): seq<(string, string)>
  {
    [("messageHash", EscapeQuotes(rec.messageHash)),
     ("recipient", EscapeQuotes(rec.recipient)),
     ("message", EscapeQuotes(rec.message)),
     ("messageType", rec.messageType)]
  }

  lemma EncodeLineJoined(rec: StoredRecord)
    ensures EncodeLine(rec) == "{" + JoinMembers(Pairs(rec)) + "}"
  {
    var ps := Pairs(rec);
    var m0, m1 := Member(ps[0].0, ps[0].1), Member(ps[1].0, ps[1].1);
    var m2, m3 := Member(ps[2].0, ps[2].1), Member(ps[3].0, ps[3].1);
    assert JoinMembers(ps[2..]) == m2 + "," + m3 by {
      assert ps[2..][1..] == ps[3..];
    }
    assert JoinMembers(ps[1..]) == m1 + "," + (m2 + "," + m3) by {
      assert ps[1..][1..] == ps[2..];
    }
    Reassociate(m0, m1, m2, m3);
  }

  /** The left-nested line and the right-nested run of members agree. */
  lemma Reassociate(m0: string, m1: string, m2: string, m3: string)
    ensures "{" + m0 + "," + m1 + "," + m2 + "," + m3 + "}"
         == "{" + (m0 + "," + (m1 + "," + (m2 + "," + m3))) + "}"
  {
  }

  /** The first member of a run, and the run after its comma. */
  lemma JoinStep(s: string, at: nat, pairs: seq<(string, string)>)
    requires |pairs| > 1
    requires at + |JoinMembers(pairs)| <= |s| && s[at..at + |JoinMembers(pairs)|] == JoinMembers(pairs)
    ensures var m := Member(pairs[0].0, pairs[0].1);
      var rest := JoinMembers(pairs[1..]);
      && at + |m| + 1 + |rest| <= |s|
      && s[at..at + |m| + 1] == m + ","
      && s[at + |m| + 1..at + |m| + 1 + |rest|] == rest
  {
    var m := Member(pairs[0].0, pairs[0].1);
    var rest := JoinMembers(pairs[1..]);
    var joined := JoinMembers(pairs);
    assert joined == m + "," + rest;
    assert joined[..|m| + 1] == m + ",";
    assert joined[|m| + 1..] == rest;
  }

  /** A run of members starts with its first member. */
  lemma JoinStartsWithFirst(pairs: seq<(string, string)>)
    requires |pairs| > 0
    ensures |Member(pairs[0].0, pairs[0].1)| <= |JoinMembers(pairs)|
    ensures JoinMembers(pairs)[..|Member(pairs[0].0, pairs[0].1)|] == Member(pairs[0].0, pairs[0].1)
  {
  }

  /** A member starts with its key followed by the value's first quote-free
      stretch `w` and a quote. */
  lemma MemberStartsWithKey(f: string, v: string, w: string)
    requires |w| <= |v| && (v + "\"")[..|w| + 1] == w + "\""
    ensures |KeyPattern(f)| + |w| + 1 <= |Member(f, v)|
    ensures Member(f, v)[..|KeyPattern(f)| + |w| + 1] == KeyPattern(f) + w + "\""
  {
    var p := KeyPattern(f);
    assert Member(f, v) == p + (v + "\"");
  }

  /** A prefix of a stretch of `s` known to hold `t`. */
  lemma SlicePrefix(s: string, at: nat, t: string, n: nat)
    requires at + |t| <= |s| && s[at..at + |t|] == t && n <= |t|
    ensures s[at..at + n] == t[..n]
  {
    assert s[at..at + n] == s[at..at + |t|][..n];
  }

  /** The search stops at the first member of a run when it has the key. */
  lemma ExtractFirstMember(s: string, at: nat, pairs: seq<(string, string)>, w: string)
    requires |pairs| > 0 && PlainKey(pairs[0].0) && QuoteFree(w) && |w| <= |pairs[0].1|
    requires (pairs[0].1 + "\"")[..|w| + 1] == w + "\""
    requires at + |JoinMembers(pairs)| <= |s| && s[at..at + |JoinMembers(pairs)|] == JoinMembers(pairs)
    requires IndexOf(s, KeyPattern(pairs[0].0), 0) == IndexOf(s, KeyPattern(pairs[0].0), at)
    ensures ExtractJsonField(s, pairs[0].0) == w
  {
    var f := pairs[0].0;
    var m := Member(f, pairs[0].1);
    var n := |KeyPattern(f)| + |w| + 1;
    JoinStartsWithFirst(pairs);
    MemberStartsWithKey(f, pairs[0].1, w);
    SlicePrefix(s, at, JoinMembers(pairs), |m|);
    SlicePrefix(s, at, m, n);
    ExtractAt(s, at, f, w);
  }

  /** The members before member `i` are quote-free and have other keys. */
  predicate KeysBeforeDiffer(pairs: seq<(string, string)>, i: nat)
    requires i < |pairs|
  {
    forall j :: 0 <= j < i ==> QuoteFree(pairs[j].0) && QuoteFree(pairs[j].1) && pairs[j].0 != pairs[i].0
  }

  /** Searching a run of members for the key of member `i` passes over the
      members before it and returns the text of member `i` up to its first
      quote, here `w`. */
  lemma {:induction false} ExtractFromMembers(s: string, at: nat, pairs: seq<(string, string)>, i: nat, w: string)
    requires i < |pairs|
    requires KeysBeforeDiffer(pairs, i)
    requires PlainKey(pairs[i].0) && QuoteFree(w) && |w| <= |pairs[i].1|
    requires (pairs[i].1 + "\"")[..|w| + 1] == w + "\""
    requires at + |JoinMembers(pairs)| <= |s| && s[at..at + |JoinMembers(pairs)|] == JoinMembers(pairs)
    requires IndexOf(s, KeyPattern(pairs[i].0), 0) == IndexOf(s, KeyPattern(pairs[i].0), at)
    ensures ExtractJsonField(s, pairs[i].0) == w
    decreases i
  {
    if i == 0 {
      ExtractFirstMember(s, at, pairs, w);
    } else {
      StepPastFirst(s, at, pairs, i);
      ExtractFromMembers(s, at + |Member(pairs[0].0, pairs[0].1)| + 1, pairs[1..], i - 1, w);
    }
  }

  /** The search for the key of member `i > 0` passes over the first member
      of the run and goes on with the rest of the run. */
  lemma StepPastFirst(s: string, at: nat, pairs: seq<(string, string)>, i: nat)
    requires 0 < i < |pairs| && KeysBeforeDiffer(pairs, i) && PlainKey(pairs[i].0)
    requires at + |JoinMembers(pairs)| <= |s| && s[at..at + |JoinMembers(pairs)|] == JoinMembers(pairs)
    ensures var next := at + |Member(pairs[0].0, pairs[0].1)| + 1;
      && pairs[1..][i - 1] == pairs[i]
      && KeysBeforeDiffer(pairs[1..], i - 1)
      && next + |JoinMembers(pairs[1..])| <= |s|
      && s[next..next + |JoinMembers(pairs[1..])|] == JoinMembers(pairs[1..])
      && IndexOf(s, KeyPattern(pairs[i].0), at) == IndexOf(s, KeyPattern(pairs[i].0), next)
  {
    var rest := pairs[1..];
    JoinStep(s, at, pairs);
    SkipMember(s, at, pairs[0].0, pairs[0].1, pairs[i].0);
    assert rest[i - 1] == pairs[i];
    assert KeysBeforeDiffer(rest, i - 1) by {
      forall j | 0 <= j < i - 1 ensures rest[j] == pairs[j + 1] { }
    }
  }

  /** The four keys are distinct and can be searched for. */
  lemma PairKeys(rec: StoredRecord)
    ensures forall j :: 0 <= j < 4 ==> PlainKey(Pairs(rec)[j].0)
    ensures forall j, k :: 0 <= j < k < 4 ==> Pairs(rec)[j].0 != Pairs(rec)[k].0
  {
  }

  /** Field `i` of an encoded line is read back as `w`, the first quote-free
      stretch of its written value, when the fields before it are quote-free. */
  lemma ExtractFromLine(rec: StoredRecord, i: nat, w: string)
    requires i < 4
    requires forall j :: 0 <= j < i ==> QuoteFree(Pairs(rec)[j].1)
    requires QuoteFree(w) && |w| <= |Pairs(rec)[i].1|
    requires (Pairs(rec)[i].1 + "\"")[..|w| + 1] == w + "\""
    ensures ExtractJsonField(EncodeLine(rec), Pairs(rec)[i].0) == w
  {
    var s, ps := EncodeLine(rec), Pairs(rec);
    var f := ps[i].0;
    PairKeys(rec);
    EncodeLineJoined(rec);
    var joined := JoinMembers(ps);
    assert s[1..1 + |joined|] == joined;
    NoKeyAtNonQuote(s, 0, f);
    IndexOfSkip(s, KeyPattern(f), 0, 1);
    ExtractFromMembers(s, 1, ps, i, w);
  }

  /** A quote-free value is read back whole. */
  lemma ExtractWholeValue(rec: StoredRecord, i: nat)
    requires i < 4
    requires forall j :: 0 <= j <= i ==> QuoteFree(Pairs(rec)[j].1)
    ensures ExtractJsonField(EncodeLine(rec), Pairs(rec)[i].0) == Pairs(rec)[i].1
  {
    var v := Pairs(rec)[i].1;
    assert (v + "\"")[..|v| + 1] == v + "\"";
    ExtractFromLine(rec, i, v);
  }

  /** Reading back a line written by `storeMessageToJson` gives the stored
      hash, recipient, body and type, provided none of them holds a double
      quote. */
  lemma DecodeEncode(rec: StoredRecord)
    requires QuoteFree(rec.messageHash) && QuoteFree(rec.recipient)
    requires QuoteFree(rec.message) && QuoteFree(rec.messageType)
    ensures DecodeLine(EncodeLine(rec)) == rec
  {
    var ps := Pairs(rec);
    assert ps[0].1 == rec.messageHash && ps[1].1 == rec.recipient;
    assert ps[2].1 == rec.message && ps[3].1 == rec.messageType;
    ExtractWholeValue(rec, 0);
    ExtractWholeValue(rec, 1);
    ExtractWholeValue(rec, 2);
    ExtractWholeValue(rec, 3);
  }

  lemma EscapeQuoteChar()
    ensures EscapeQuotes("\"") == "\\\""
  {
    assert "\""[1..] == [];
  }

  /** Escaping a text with one quote after a quote-free stretch `a`. */
  lemma EscapeOneQuote(a: string, b: string)
    requires QuoteFree(a)
    ensures EscapeQuotes(a + "\"" + b) == (a + "\\") + "\"" + EscapeQuotes(b)
  {
    calc {
      EscapeQuotes(a + "\"" + b);
      { EscapeQuotesAppend(a + "\"", b); }
      EscapeQuotes(a + "\"") + EscapeQuotes(b);
      { EscapeQuotesAppend(a, "\""); EscapeQuoteChar(); }
      a + "\\\"" + EscapeQuotes(b);
      { assert a + "\\\"" == (a + "\\") + "\""; }
      (a + "\\") + "\"" + EscapeQuotes(b);
    }
  }

  /** What comes before the first quote of `w + "\"" + x`. */
  lemma UpToFirstQuote(w: string, x: string)
    ensures |w| <= |w + "\"" + x|
    ensures ((w + "\"" + x) + "\"")[..|w| + 1] == w + "\""
  {
    assert ((w + "\"" + x) + "\"") == (w + "\"") + (x + "\"");
  }

  /** The backslash written before a double quote is not understood by the
      extractor: a body `a"b` comes back as `a\`, cut at the escaped quote. */
  lemma QuoteInMessageTruncates(rec: StoredRecord, a: string, b: string)
    requires QuoteFree(rec.messageHash) && QuoteFree(rec.recipient) && QuoteFree(a)
    requires rec.message == a + "\"" + b
    ensures DecodeLine(EncodeLine(rec)).message == a + "\\"
    ensures DecodeLine(EncodeLine(rec)).message != rec.message
  {
    var w := a + "\\";
    EscapeOneQuote(a, b);
    UpToFirstQuote(w, EscapeQuotes(b));
    assert QuoteFree(w);
    ExtractFromLine(rec, 2, w);
    assert rec.message[|a|] == Quote;
  }
}
