/**
 * Keys as text: how bucket keys are built and taken apart again, which keys share a slot
 * through their hash tags, and the table of tags that reach every slot.
 */
module KeyCodec {
  import opened Wrappers
  import opened Text

  const NUM_SLOTS: nat := 16384

  /** CRC16-XMODEM of the tag; the slot rules need only that it is a function. */
  type Crc = string -> nat

  // ----- names ------------------------------------------------------------------------------

  predicate IsIdent(s: string) {
    s != "" && forall i :: 0 <= i < |s| ==> s[i] == '_' || 'a' <= s[i] <= 'z' || 'A' <= s[i] <= 'Z' || IsDigit(s[i])
  }

  /** Escaped values: what QueryEscape leaves, or the digest form. */
  predicate IsEscaped(s: string) { forall i :: 0 <= i < |s| ==> Unreserved(s[i]) || s[i] == '+' || s[i] == '%' }

  /** A value's form in a key: the digest of a long one or of one with structure in it. */
  function EscapeValue(digest: string -> string, v: string): string
    requires Bytes(v)
  {
    if |v| > 128 || ':' in v || '{' in v || '}' in v || '#' in v then "~x" + digest(v) else QueryEscape(v)
  }

  /** No escaped value has a character that structures keys. */
  lemma EscapedIsSafe(digest: string -> string, v: string)
    requires Bytes(v) && IsEscaped(digest(v))
    ensures IsEscaped(EscapeValue(digest, v))
  {
    hide IsEscaped, QueryEscape;
    SafeQuery(v);
    SafeDigest(digest(v));
  }

  lemma SafeQuery(v: string)
    requires Bytes(v)
    ensures IsEscaped(QueryEscape(v))
  {
    hide QueryEscape, QueryUnescape, Unreserved;
    EscapeRoundTrip(v);
    var q := QueryEscape(v);
    assert forall i :: 0 <= i < |q| ==> q[i] in q;
  }

  lemma SafeDigest(d: string)
    requires IsEscaped(d)
    ensures IsEscaped("~x" + d)
  {
  }

  /** Too long, or with a character that structures keys: such a value goes by its digest. */
  predicate Digested(v: string) { |v| > 128 || exists c <- v :: c in ":{}#" }

  /** Any other value can be read back from its form. */
  lemma PlainIsReadBack(digest: string -> string, v: string)
    requires Bytes(v) && !Digested(v)
    ensures QueryUnescape(EscapeValue(digest, v)) == Some(v)
  {
    EscapeRoundTrip(v);
    assert ':' !in v && '{' !in v && '}' !in v && '#' !in v;
  }

  lemma DigestIsMarked(digest: string -> string, v: string)
    requires Bytes(v) && Digested(v)
    ensures EscapeValue(digest, v) == "~x" + digest(v)
  {
  }

  /**
   * With a digest that tells the digested values apart, two values share a form exactly when
   * they are the same, or one goes by its digest and the other one spells that digest out.
   */
  lemma SharedFormIff(digest: string -> string, v: string, w: string)
    requires Bytes(v) && Bytes(w) && (Digested(v) && Digested(w) && digest(v) == digest(w) ==> v == w)
    ensures EscapeValue(digest, v) == EscapeValue(digest, w) <==>
            || v == w
            || (Digested(v) && !Digested(w) && QueryEscape(w) == "~x" + digest(v))
            || (Digested(w) && !Digested(v) && QueryEscape(v) == "~x" + digest(w))
  {
    hide QueryEscape, QueryUnescape;
    if Digested(v) { DigestIsMarked(digest, v); } else { PlainIsReadBack(digest, v); }
    if Digested(w) { DigestIsMarked(digest, w); } else { PlainIsReadBack(digest, w); }
    if Digested(v) && Digested(w) && EscapeValue(digest, v) == EscapeValue(digest, w) {
      assert ("~x" + digest(v))[2..] == digest(v) && ("~x" + digest(w))[2..] == digest(w);
    }
    PlainForm(digest, v);
    PlainForm(digest, w);
  }

  lemma PlainForm(digest: string -> string, v: string)
    requires Bytes(v)
    ensures !Digested(v) ==> EscapeValue(digest, v) == QueryEscape(v)
  {
    if !Digested(v) {
      assert ':' !in v && '{' !in v && '}' !in v && '#' !in v;
    }
  }

  /** There is such a pair for every value that goes by a digest of letters and digits. */
  lemma SpelledOutDigest(digest: string -> string, v: string)
    requires Bytes(v) && Digested(v) && |digest(v)| <= 126 && forall c <- digest(v) :: Unreserved(c)
    ensures Bytes("~x" + digest(v)) && !Digested("~x" + digest(v))
    ensures EscapeValue(digest, "~x" + digest(v)) == EscapeValue(digest, v)
  {
    var w := "~x" + digest(v);
    forall i | 0 <= i < |w| ensures Unreserved(w[i]) && w[i] as int < 256 {
      assert i >= 2 ==> w[i] in digest(v);
    }
    DigestIsMarked(digest, v);
    PlainForm(digest, w);
    hide Unreserved;
    UnreservedStays(w);
  }

  lemma {:induction false} UnreservedStays(s: string)
    requires Bytes(s) && forall c <- s :: Unreserved(c)
    ensures QueryEscape(s) == s
  {
    if s != [] {
      UnreservedStays(s[1..]);
      assert s == [s[0]] + s[1..] && s[0] in s;
    }
  }

  // ----- bucket keys ---------------------------------------------------------------------------

  function EqBucketKey(table: string, idx: string, enc: string, n: nat): string {
    "i:" + table + ":" + idx + "={" + (if n == 0 then enc else enc + "#b" + Digits(n)) + "}"
  }

  function RangeBucketKey(table: string, idx: string, n: nat): string {
    "i:" + table + ":" + idx + ":{r" + Digits(n) + "}"
  }

  /** Position of the first "#b". */
  function SubMark(tag: string): (r: Option<nat>)
    ensures r.Some? ==> r.value + 2 <= |tag|
    ensures '#' !in tag ==> r.None?
  {
    if |tag| < 2 then None
    else if tag[0] == '#' && tag[1] == 'b' then Some(0)
    else match SubMark(tag[1..]) { case None => None case Some(i) => Some(i + 1) }
  }

  lemma {:induction false} SubMarkAt(enc: string, rest: string)
    requires '#' !in enc
    ensures SubMark(enc + "#b" + rest) == Some(|enc|)
  {
    if enc != "" {
      SubMarkAt(enc[1..], rest);
      assert (enc + "#b" + rest)[1..] == enc[1..] + "#b" + rest;
    }
  }

  datatype EqAddress = EqAddress(table: string, idx: string, enc: string, sub: nat)
  datatype RangeAddress = RangeAddress(table: string, idx: string, sub: nat)

  /** The parts of `table:rest` behind the "i:" of every bucket key. */
  function TableAndRest(key: string): Option<(string, string)> {
    if !("i:" <= key) then None
    else
      var rest := key[2..];
      var colon := IndexOf(rest, ':');
      if colon.None? then None else Some((rest[..colon.value], rest[colon.value + 1..]))
  }

  function ParseEqBucketKey(key: string): Option<EqAddress> {
    var tr := TableAndRest(key);
    if tr.None? then None
    else
      var table, rest := tr.value.0, tr.value.1;
      var eqPos, tagPos, end := IndexOf(rest, '='), IndexOf(rest, '{'), IndexOf(rest, '}');
      if eqPos.None? || tagPos.None? || eqPos.value + 1 != tagPos.value || end.None? || end.value <= tagPos.value
          then None
      else
        var tag := rest[tagPos.value + 1..end.value];
        var h := SubMark(tag);
        if h.Some? then
          match ParseSigned(tag[h.value + 2..])
          case Some(n) => Some(EqAddress(table, rest[..eqPos.value], tag[..h.value], n))
          case None => None
        else if '#' in tag then None
        else Some(EqAddress(table, rest[..eqPos.value], tag, 0))
  }

  function ParseRangeBucketKey(key: string): Option<RangeAddress> {
    var tr := TableAndRest(key);
    if tr.None? then None
    else
      var table, rest := tr.value.0, tr.value.1;
      var tagPos, end := IndexOf(rest, '{'), IndexOf(rest, '}');
      if tagPos.None? || tagPos.value == 0 || end.None? || end.value <= tagPos.value then None
      else
        var tag := rest[tagPos.value + 1..end.value];
        if !("r" <= tag) || ParseSigned(tag[1..]).None? then None
        else Some(RangeAddress(table, rest[..tagPos.value - 1], ParseSigned(tag[1..]).value))
  }

  // ----- reading back what was built -------------------------------------------------------------

  lemma IdentHas(s: string, c: char)
    requires IsIdent(s) && c in ":={}#|"
    ensures c !in s
  {
  }

  lemma EscapedHas(s: string, c: char)
    requires IsEscaped(s) && c in ":={}#"
    ensures c !in s
  {
  }

  lemma FoundTable(table: string, rest: string)
    requires IsIdent(table)
    ensures TableAndRest("i:" + table + ":" + rest) == Some((table, rest))
  {
    IdentHas(table, ':');
    FirstAt(table, ':', rest);
    assert ("i:" + table + ":" + rest)[2..] == table + ":" + rest;
  }

  /** Positions in `name sep { tag }`. */
  lemma FoundTag(name: string, sep: char, tag: string)
    requires IsIdent(name) && sep in ":=" && '{' !in tag && '}' !in tag
    ensures var rest := name + [sep] + "{" + tag + "}";
            && IndexOf(rest, '{') == Some(|name| + 1) && IndexOf(rest, '}') == Some(|name| + 2 + |tag|)
            && rest[|name| + 2..|name| + 2 + |tag|] == tag && rest[..|name|] == name
            && (sep == '=' ==> IndexOf(rest, '=') == Some(|name|))
  {
    hide IndexOf, IsIdent;
    IdentSafe(name);
    OpenAt(name, sep, tag);
    NoClose(name, sep, tag);
    CloseAt(name + [sep] + "{" + tag);
    TagParts(name, sep, tag);
    if sep == '=' {
      EqualsAt(name, tag);
    }
  }

  lemma IdentSafe(s: string)
    requires IsIdent(s)
    ensures '{' !in s && '}' !in s && '=' !in s && ':' !in s
  {
  }

  lemma EqualsAt(name: string, tag: string)
    requires '=' !in name
    ensures IndexOf(name + ['='] + "{" + tag + "}", '=') == Some(|name|)
  {
    hide IndexOf;
    FirstAt(name, '=', "{" + tag + "}");
    assert name + ['='] + "{" + tag + "}" == name + ['='] + ("{" + tag + "}");
  }

  lemma TagParts(name: string, sep: char, tag: string)
    ensures var rest := name + [sep] + "{" + tag + "}";
            rest[|name| + 2..|name| + 2 + |tag|] == tag && rest[..|name|] == name
  {
  }

  lemma OpenAt(name: string, sep: char, tag: string)
    requires '{' !in name && sep != '{'
    ensures IndexOf(name + [sep] + "{" + tag + "}", '{') == Some(|name| + 1)
  {
    hide IndexOf;
    FirstAt(name + [sep], '{', tag + "}");
    assert name + [sep] + "{" + tag + "}" == name + [sep] + ['{'] + (tag + "}");
  }

  lemma CloseAt(before: string)
    requires '}' !in before
    ensures IndexOf(before + "}", '}') == Some(|before|)
  {
    hide IndexOf;
    FirstAt(before, '}', "");
    assert before + ['}'] + "" == before + "}";
  }

  lemma NoClose(name: string, sep: char, tag: string)
    requires '}' !in name && sep != '}' && '}' !in tag
    ensures '}' !in name + [sep] + "{" + tag
  {
    NotInAppend(name, [sep], '}');
    NotInAppend(name + [sep], "{", '}');
    NotInAppend(name + [sep] + "{", tag, '}');
  }

  lemma NotInAppend(a: string, b: string, c: char)
    requires c !in a && c !in b
    ensures c !in a + b
  {
  }

  function EqTag(enc: string, n: nat): string { if n == 0 then enc else enc + "#b" + Digits(n) }

  lemma EqKeyForm(table: string, idx: string, enc: string, n: nat)
    ensures EqBucketKey(table, idx, enc, n) == "i:" + table + ":" + (idx + ['='] + "{" + EqTag(enc, n) + "}")
  {
  }

  lemma RangeKeyForm(table: string, idx: string, n: nat)
    ensures RangeBucketKey(table, idx, n) == "i:" + table + ":" + (idx + [':'] + "{" + ("r" + Digits(n)) + "}")
  {
  }

  lemma EqTagIsSafe(enc: string, n: nat)
    requires IsEscaped(enc)
    ensures '{' !in EqTag(enc, n) && '}' !in EqTag(enc, n)
  {
    EscapedHas(enc, '{');
    EscapedHas(enc, '}');
  }

  lemma EqRoundTrip(table: string, idx: string, enc: string, n: nat)
    requires IsIdent(table) && IsIdent(idx) && IsEscaped(enc)
    ensures ParseEqBucketKey(EqBucketKey(table, idx, enc, n)) == Some(EqAddress(table, idx, enc, n))
  {
    hide IsIdent, IndexOf, Digits, ParseSigned, TableAndRest;
    var tag := EqTag(enc, n);
    EqKeyForm(table, idx, enc, n);
    EqTagIsSafe(enc, n);
    FoundTable(table, idx + ['='] + "{" + tag + "}");
    FoundTag(idx, '=', tag);
    EscapedHas(enc, '#');
    if n > 0 {
      SubMarkAt(enc, Digits(n));
      assert tag[|enc| + 2..] == Digits(n) && tag[..|enc|] == enc;
      SignedRoundTrip(n);
    }
  }

  lemma RangeRoundTrip(table: string, idx: string, n: nat)
    requires IsIdent(table) && IsIdent(idx)
    ensures ParseRangeBucketKey(RangeBucketKey(table, idx, n)) == Some(RangeAddress(table, idx, n))
    ensures ParseEqBucketKey(RangeBucketKey(table, idx, n)).None?
  {
    hide IsIdent, IndexOf, Digits, ParseSigned, TableAndRest;
    var tag := "r" + Digits(n);
    RangeKeyForm(table, idx, n);
    DigitsAreSafe(n);
    FoundTable(table, idx + [':'] + "{" + tag + "}");
    FoundTag(idx, ':', tag);
    NoEquals(idx, n);
    SignedRoundTrip(n);
    assert tag[1..] == Digits(n);
  }

  lemma DigitsAreSafe(n: nat)
    ensures '{' !in "r" + Digits(n) && '}' !in "r" + Digits(n) && '=' !in Digits(n)
  {
  }

  lemma NoEquals(idx: string, n: nat)
    requires IsIdent(idx)
    ensures IndexOf(idx + [':'] + "{" + ("r" + Digits(n)) + "}", '=').None?
  {
    IdentHas(idx, '=');
    DigitsAreSafe(n);
  }

  /**
   * The range parser by itself also accepts the key of an equality bucket, exactly when it is
   * the first one of its value and the escaped value looks like the number of a range bucket;
   * so the other parser has to be asked first.
   */
  lemma RangeParserOnEqKey(table: string, idx: string, enc: string, n: nat)
    requires IsIdent(table) && IsIdent(idx) && IsEscaped(enc)
    ensures ParseRangeBucketKey(EqBucketKey(table, idx, enc, n)).Some?
            <==> n == 0 && "r" <= enc && ParseSigned(enc[1..]).Some?
  {
    hide IsIdent, IndexOf, Digits, ParseSigned, TableAndRest;
    var tag := EqTag(enc, n);
    EqKeyForm(table, idx, enc, n);
    EqTagIsSafe(enc, n);
    FoundTable(table, idx + ['='] + "{" + tag + "}");
    FoundTag(idx, '=', tag);
    if n > 0 && "r" <= tag {
      assert tag[|enc|] == '#';
      NoNumber(tag[1..], if enc == "" then 0 else |enc| - 1);
    }
  }

  /** A text with a hash sign in it is no number. */
  lemma NoNumber(s: string, i: nat)
    requires i < |s| && s[i] == '#'
    ensures ParseSigned(s).None?
  {
    if s[0] == '+' || s[0] == '-' {
      AllDigits(s[1..], i - 1);
    } else {
      AllDigits(s, i);
    }
  }

  lemma {:induction false} AllDigits(s: string, i: nat)
    requires i < |s| && !IsDigit(s[i])
    ensures ParseDigits(s).None?
  {
    if i < |s| - 1 {
      AllDigits(s[..|s| - 1], i);
    }
  }

  datatype Located = Eq(eq: EqAddress) | Range(range: RangeAddress) | Nowhere

  /** The order in which the manager asks. */
  function Locate(key: string): Located {
    match ParseEqBucketKey(key)
    case Some(a) => Eq(a)
    case None => match ParseRangeBucketKey(key) { case Some(b) => Range(b) case None => Nowhere }
  }

  lemma LocateRoundTrip(table: string, idx: string, enc: string, n: nat)
    requires IsIdent(table) && IsIdent(idx) && IsEscaped(enc)
    ensures Locate(EqBucketKey(table, idx, enc, n)) == Eq(EqAddress(table, idx, enc, n))
    ensures Locate(RangeBucketKey(table, idx, n)) == Range(RangeAddress(table, idx, n))
  {
    hide ParseEqBucketKey, ParseRangeBucketKey;
    EqRoundTrip(table, idx, enc, n);
    RangeRoundTrip(table, idx, n);
  }

  // ----- slots -------------------------------------------------------------------------------------

  function RowKey(table: string, pk: string): string { "d:" + table + ":{" + pk + "}" }
  function ReceiptKey(table: string, pk: string): string { "rcpt:" + table + ":{" + pk + "}" }

  /** Keys of rows and of receipts are never the same, and each belongs to one table and key. */
  lemma RowKeysDiffer(table: string, pk: string, table': string, pk': string)
    requires IsIdent(table) && IsIdent(table')
    ensures RowKey(table, pk) == RowKey(table', pk') ==> table == table' && pk == pk'
    ensures ReceiptKey(table, pk) == ReceiptKey(table', pk') ==> table == table' && pk == pk'
    ensures RowKey(table, pk) != ReceiptKey(table', pk')
  {
    hide IsIdent;
    IdentHas(table, ':');
    IdentHas(table', ':');
    assert RowKey(table, pk)[0] == 'd' && ReceiptKey(table', pk')[0] == 'r';
    if RowKey(table, pk) == RowKey(table', pk') {
      SamePair("d:", table, pk, table', pk');
    }
    if ReceiptKey(table, pk) == ReceiptKey(table', pk') {
      SamePair("rcpt:", table, pk, table', pk');
    }
  }

  lemma SamePair(prefix: string, table: string, pk: string, table': string, pk': string)
    requires ':' !in table && ':' !in table'
    requires prefix + table + ":{" + pk + "}" == prefix + table' + ":{" + pk' + "}"
    ensures table == table' && pk == pk'
  {
    var a, b := prefix + table + ":{" + pk + "}", prefix + table' + ":{" + pk' + "}";
    assert a[|prefix|..] == table + [':'] + ("{" + pk + "}") && b[|prefix|..] == table' + [':'] + ("{" + pk' + "}");
    FirstAt(table, ':', "{" + pk + "}");
    FirstAt(table', ':', "{" + pk' + "}");
    assert "{" + pk + "}" == "{" + pk' + "}";
    assert ("{" + pk + "}")[1..|pk| + 1] == pk && ("{" + pk' + "}")[1..|pk'| + 1] == pk';
  }

  /** The part of the key that is hashed: what the first braces enclose, if they enclose anything. */
  function HashTag(key: string): string {
    var i := IndexOf(key, '{');
    if i.None? then key
    else
      var rest := key[i.value + 1..];
      var j := IndexOf(rest, '}');
      if j.None? || j.value == 0 then key else rest[..j.value]
  }

  function Slot(crc: Crc, key: string): nat { crc(HashTag(key)) % NUM_SLOTS }

  lemma TagOf(prefix: string, tag: string, suffix: string)
    requires '{' !in prefix
    ensures var key := prefix + "{" + tag + "}" + suffix;
            HashTag(key) == if tag == "" || tag[0] == '}' then key
                            else if '}' in tag then tag[..IndexOf(tag, '}').value] else tag
  {
    hide IndexOf, HashTag;
    var rest := tag + "}" + suffix;
    TagBehind(prefix, rest);
    ClosedAt(tag, suffix);
    FirstClosed(tag);
    assert prefix + ['{'] + rest == prefix + "{" + tag + "}" + suffix;
  }

  lemma FirstClosed(tag: string)
    ensures '}' in tag ==> (IndexOf(tag, '}').value == 0 <==> tag[0] == '}')
  {
    hide IndexOf;
    if '}' in tag {
      var i := IndexOf(tag, '}').value;
      assert i > 0 ==> tag[..i][0] == tag[0];
    }
  }

  lemma TagBehind(prefix: string, rest: string)
    requires '{' !in prefix
    ensures var key, j := prefix + ['{'] + rest, IndexOf(rest, '}');
            HashTag(key) == if j.None? || j.value == 0 then key else rest[..j.value]
  {
    hide IndexOf;
    FirstAt(prefix, '{', rest);
  }

  /** Where the first closing brace is. */
  lemma ClosedAt(tag: string, suffix: string)
    ensures var rest := tag + "}" + suffix;
            var end := if '}' in tag then IndexOf(tag, '}').value else |tag|;
            IndexOf(rest, '}') == Some(end) && rest[..end] == tag[..end]
  {
    hide IndexOf;
    if '}' in tag {
      var i := IndexOf(tag, '}').value;
      SplitHere(tag, '}');
      ClosedInside(tag[..i], tag[i + 1..], suffix);
    } else {
      FirstAt(tag, '}', suffix);
    }
  }

  lemma SplitHere(s: string, c: char)
    requires c in s
    ensures var i := IndexOf(s, c).value; s == s[..i] + [c] + s[i + 1..] && c !in s[..i]
  {
    hide IndexOf;
  }

  lemma ClosedInside(a: string, b: string, suffix: string)
    requires '}' !in a
    ensures var rest := a + ['}'] + b + "}" + suffix; IndexOf(rest, '}') == Some(|a|) && rest[..|a|] == a
  {
    hide IndexOf;
    FirstAt(a, '}', b + "}" + suffix);
    assert a + ['}'] + b + "}" + suffix == a + ['}'] + (b + "}" + suffix);
  }

  lemma NoBrace(table: string)
    requires IsIdent(table)
    ensures '{' !in "d:" + table + ":" && '{' !in "rcpt:" + table + ":"
  {
    IdentHas(table, '{');
  }

  /** Row and receipt hash alike exactly when the key is neither empty nor starts with a closing brace. */
  lemma RowAndReceiptShareTag(table: string, pk: string)
    requires IsIdent(table)
    ensures HashTag(RowKey(table, pk)) == HashTag(ReceiptKey(table, pk)) <==> pk != "" && pk[0] != '}'
  {
    hide HashTag, IsIdent, IndexOf, RowKey, ReceiptKey;
    NoBrace(table);
    FamilyTag("d:" + table + ":", pk);
    FamilyTag("rcpt:" + table + ":", pk);
    FirstLetters(table, pk);
    KeyForms(table, pk);
  }

  lemma KeyForms(table: string, pk: string)
    ensures RowKey(table, pk) == ("d:" + table + ":") + "{" + pk + "}"
    ensures ReceiptKey(table, pk) == ("rcpt:" + table + ":") + "{" + pk + "}"
  {
  }

  lemma FirstLetters(table: string, pk: string)
    ensures RowKey(table, pk) != ReceiptKey(table, pk)
  {
    assert RowKey(table, pk)[0] == 'd' && ReceiptKey(table, pk)[0] == 'r';
  }

  lemma FamilyTag(prefix: string, pk: string)
    requires '{' !in prefix
    ensures HashTag(prefix + "{" + pk + "}") == if pk == "" || pk[0] == '}' then prefix + "{" + pk + "}"
                                              else if '}' in pk then pk[..IndexOf(pk, '}').value] else pk
  {
    hide HashTag, IndexOf;
    TagOf(prefix, pk, "");
    assert prefix + "{" + pk + "}" + "" == prefix + "{" + pk + "}";
  }

  // ----- a tag for every slot -------------------------------------------------------------------------

  function Padded(s: string): string
    decreases 5 - |s|
  {
    if |s| >= 5 then s else Padded("0" + s)
  }

  lemma {:induction false} PaddedDigits(s: string)
    requires s != "" && forall i :: 0 <= i < |s| ==> IsDigit(s[i])
    ensures Padded(s) != "" && forall i :: 0 <= i < |Padded(s)| ==> IsDigit(Padded(s)[i])
    decreases 5 - |s|
  {
    if |s| < 5 {
      PaddedDigits("0" + s);
    }
  }

  /** Five places at least, and the same number. */
  lemma {:induction false} PaddedIs(s: string)
    requires s != "" && ParseDigits(s).Some?
    ensures |Padded(s)| == if |s| < 5 then 5 else |s|
    ensures ParseDigits(Padded(s)) == ParseDigits(s)
    decreases 5 - |s|
  {
    if |s| < 5 {
      ZeroInFront(s);
      PaddedIs("0" + s);
    }
  }

  lemma {:induction false} ZeroInFront(s: string)
    requires s != "" && ParseDigits(s).Some?
    ensures ParseDigits("0" + s) == ParseDigits(s)
  {
    var front, last := s[..|s| - 1], s[|s| - 1];
    assert ("0" + s)[..|s|] == "0" + front && ("0" + s)[|s|] == last;
    if front != "" {
      ZeroInFront(front);
    }
  }

  function Candidate(n: nat): string { "{s:" + Padded(Digits(n)) + "}" }

  /** A table entry: some candidate, and one that hashes to the slot. */
  ghost predicate EntryOK(crc: Crc, s: nat, tag: string) {
    (exists n: nat :: tag == Candidate(n)) && Slot(crc, tag) == s
  }

  /** Some candidate below the bound hashes to the slot. */
  ghost predicate Reached(crc: Crc, bound: nat, s: nat) { exists n: nat :: n < bound && Slot(crc, Candidate(n)) == s }

  /** Every candidate goes to the first slot that has none yet; the scan ends once all have one. */
  method BuildTable(crc: Crc, ghost bound: nat) returns (table: map<nat, string>)
    requires forall s: nat :: s < NUM_SLOTS ==> Reached(crc, bound, s)
    ensures forall s: nat :: s < NUM_SLOTS ==> s in table && EntryOK(crc, s, table[s])
  {
    hide *;
    table := map[];
    var n := 0;
    var filled := 0;
    NothingFilled(crc);
    while filled < NUM_SLOTS
      invariant FilledSoFar(crc, table, n, filled)
      decreases bound - n
    {
      ScanEnds(crc, bound, n, filled, table);
      FillsOne(crc, table, n, filled);
      var cand := Candidate(n);
      var s := Slot(crc, cand);
      if s !in table {
        table := table[s := cand];
        filled := filled + 1;
      }
      n := n + 1;
    }
    AllFilled(crc, table, n, filled);
  }

  /** Every slot that one of the first `n` candidates reaches has its tag, and `filled` counts them. */
  ghost predicate FilledSoFar(crc: Crc, table: map<nat, string>, n: nat, filled: nat) {
    && filled == |table.Keys| && (forall s <- table :: s < NUM_SLOTS && EntryOK(crc, s, table[s]))
    && forall k: nat :: k < n ==> Slot(crc, Candidate(k)) in table
  }

  lemma NothingFilled(crc: Crc)
    ensures FilledSoFar(crc, map[], 0, 0)
  {
  }

  lemma FillsOne(crc: Crc, table: map<nat, string>, n: nat, filled: nat)
    requires FilledSoFar(crc, table, n, filled)
    ensures var s := Slot(crc, Candidate(n));
            if s in table then FilledSoFar(crc, table, n + 1, filled)
                else FilledSoFar(crc, table[s := Candidate(n)], n + 1, filled + 1)
  {
    IsEntryOf(crc, n);
    SlotBound(crc);
    hide Slot, Candidate, EntryOK;
    var s := Slot(crc, Candidate(n));
    if s !in table {
      assert table[s := Candidate(n)].Keys == table.Keys + {s};
    }
  }

  lemma AllFilled(crc: Crc, table: map<nat, string>, n: nat, filled: nat)
    requires FilledSoFar(crc, table, n, filled) && filled >= NUM_SLOTS
    ensures forall s: nat :: s < NUM_SLOTS ==> s in table && EntryOK(crc, s, table[s])
  {
    hide Slot, Candidate, EntryOK;
    AllOf(table.Keys);
  }

  lemma IsEntryOf(crc: Crc, n: nat)
    ensures EntryOK(crc, Slot(crc, Candidate(n)), Candidate(n))
  {
  }

  /** Before every slot is filled the scan has not reached the bound. */
  lemma ScanEnds(crc: Crc, bound: nat, n: nat, filled: nat, table: map<nat, string>)
    requires (forall s: nat :: s < NUM_SLOTS ==> Reached(crc, bound, s)) && FilledSoFar(crc, table, n, filled)
    requires filled < NUM_SLOTS
    ensures n < bound
  {
    hide Slot, Candidate, Below, EntryOK;
    if n >= bound {
      forall s: nat | s < NUM_SLOTS ensures s in table.Keys {
        assert Reached(crc, bound, s);
      }
      AllSlots(table.Keys);
    }
  }

  lemma SlotBound(crc: Crc)
    ensures forall key: string :: Slot(crc, key) < NUM_SLOTS
  {
  }

  function Below(n: nat): (s: set<nat>)
    ensures |s| == n && forall x: nat :: x in s <==> x < n
  {
    if n == 0 then {} else Below(n - 1) + {n - 1}
  }

  lemma AllSlots(keys: set<nat>)
    requires (forall s <- keys :: s < NUM_SLOTS) && forall s: nat :: s < NUM_SLOTS ==> s in keys
    ensures |keys| == NUM_SLOTS
  {
    assert keys == Below(NUM_SLOTS);
  }

  lemma AllOf(keys: set<nat>)
    requires (forall s <- keys :: s < NUM_SLOTS) && |keys| >= NUM_SLOTS
    ensures forall s: nat :: s < NUM_SLOTS ==> s in keys
  {
    forall s: nat | s < NUM_SLOTS ensures s in keys {
      if s !in keys {
        SubsetCard(keys, Below(NUM_SLOTS) - {s});
      }
    }
  }

  lemma {:induction false} SubsetCard(a: set<nat>, b: set<nat>)
    requires a <= b
    ensures |a| <= |b|
  {
    if a != {} {
      var x :| x in a;
      SubsetCard(a - {x}, b - {x});
    }
  }

  function AsyncLogKey(table: string, idx: string, tag: string): string { "log:idx:" + table + ":" + idx + ":" + tag }

  /** The log of a row's slot is in the row's slot, and so is its receipt. */
  lemma RowFamilySharesSlot(crc: Crc, tags: map<nat, string>, table: string, idx: string, pk: string)
    requires IsIdent(table) && IsIdent(idx) && pk != "" && pk[0] != '}'
    requires forall s: nat :: s < NUM_SLOTS ==> s in tags && EntryOK(crc, s, tags[s])
    ensures var s := Slot(crc, RowKey(table, pk));
            Slot(crc, ReceiptKey(table, pk)) == s && Slot(crc, AsyncLogKey(table, idx, tags[s])) == s
  {
    hide HashTag, IsIdent, Padded, Digits;
    var s := Slot(crc, RowKey(table, pk));
    RowAndReceiptShareTag(table, pk);
    var n: nat :| tags[s] == Candidate(n);
    CandidateTag(n, "log:idx:" + table + ":" + idx + ":") by { LogPrefix(table, idx); }
  }

  lemma LogPrefix(table: string, idx: string)
    requires IsIdent(table) && IsIdent(idx)
    ensures '{' !in "log:idx:" + table + ":" + idx + ":"
  {
    IdentHas(table, '{');
    IdentHas(idx, '{');
  }

  /** In front of any prefix a candidate is still the tag that counts. */
  lemma CandidateTag(n: nat, prefix: string)
    requires '{' !in prefix
    ensures HashTag(prefix + Candidate(n)) == HashTag(Candidate(n))
  {
    hide HashTag;
    var tag := "s:" + Padded(Digits(n));
    TagOf(prefix, tag, "");
    TagOf("", tag, "");
    assert prefix + Candidate(n) == prefix + "{" + tag + "}" + "";
    assert Candidate(n) == "" + "{" + tag + "}" + "";
    assert tag[0] == 's';
  }

  // ----- replicas ----------------------------------------------------------------------------------------

  const STRIDE: nat := 1820

  /** The slot of the k-th replica of a bucket. */
  function ReplicaSlot(source: nat, k: nat): nat { (source + k * STRIDE) % NUM_SLOTS }

  /** The key with its tag replaced. */
  function ReplicaKey(crc: Crc, tags: map<nat, string>, key: string, k: nat): Option<string>
    requires forall s: nat :: s < NUM_SLOTS ==> s in tags
  {
    var i, j := IndexOf(key, '{'), IndexOf(key, '}');
    if i.None? || j.None? || j.value < i.value then None
    else Some(key[..i.value] + tags[ReplicaSlot(Slot(crc, key), k)] + key[j.value + 1..])
  }

  /** And every two of the nine are at least a ninth of all slots apart, either way round. */
  lemma ReplicasSpread(source: nat, j: nat, k: nat)
    requires source < NUM_SLOTS && j < k <= 8
    ensures var gap := (ReplicaSlot(source, k) - ReplicaSlot(source, j)) % NUM_SLOTS;
            NUM_SLOTS / 9 <= gap <= NUM_SLOTS - NUM_SLOTS / 9
  {
    var gap := (ReplicaSlot(source, k) - ReplicaSlot(source, j)) % NUM_SLOTS;
    var d := (k - j) * STRIDE;
    assert STRIDE <= d <= 8 * STRIDE;
    var a, b := source + k * STRIDE, source + j * STRIDE;
    assert a == b + d && a < 2 * NUM_SLOTS;
    assert gap == d;
  }

  /** Up to eight replicas of a bucket and the bucket itself are in nine different slots. */
  lemma ReplicasApart(source: nat, j: nat, k: nat)
    requires source < NUM_SLOTS && j < k <= 8
    ensures ReplicaSlot(source, j) != ReplicaSlot(source, k)
  {
    assert source + k * STRIDE < source + j * STRIDE + NUM_SLOTS;
  }

  /** The replica is in the slot meant for it. */
  lemma ReplicaKeyHitsSlot(crc: Crc, tags: map<nat, string>, prefix: string, tag: string, suffix: string, k: nat)
    requires (forall s: nat :: s < NUM_SLOTS ==> s in tags && EntryOK(crc, s, tags[s])) && '{' !in prefix
    requires '}' !in prefix && '}' !in tag
    ensures var key := prefix + "{" + tag + "}" + suffix;
            && ReplicaKey(crc, tags, key, k).Some?
            && Slot(crc, ReplicaKey(crc, tags, key, k).value) == ReplicaSlot(Slot(crc, key), k)
  {
    hide HashTag, Padded, Digits;
    var key := prefix + "{" + tag + "}" + suffix;
    FirstAt(prefix, '{', tag + "}" + suffix);
    assert key == prefix + ['{'] + (tag + "}" + suffix);
    FirstAt(prefix + "{" + tag, '}', suffix);
    assert key == prefix + "{" + tag + ['}'] + suffix;
    var s := ReplicaSlot(Slot(crc, key), k);
    var n: nat :| tags[s] == Candidate(n);
    CandidateInside(n, prefix, suffix);
    assert ReplicaKey(crc, tags, key, k).value == prefix + Candidate(n) + suffix;
  }

  lemma CandidateInside(n: nat, prefix: string, suffix: string)
    requires '{' !in prefix
    ensures HashTag(prefix + Candidate(n) + suffix) == HashTag(Candidate(n))
  {
    hide HashTag;
    var tag := "s:" + Padded(Digits(n));
    TagOf(prefix, tag, suffix);
    TagOf("", tag, "");
    NoBraceInNumber(n);
    assert prefix + Candidate(n) + suffix == prefix + "{" + tag + "}" + suffix;
    assert Candidate(n) == "" + "{" + tag + "}" + "";
    assert tag[0] == 's';
  }

  lemma NoBraceInNumber(n: nat)
    ensures '}' !in "s:" + Padded(Digits(n))
  {
    assert forall i :: 0 <= i < |Digits(n)| ==> Digits(n)[i] in Digits(n);
    PaddedDigits(Digits(n));
  }
}
