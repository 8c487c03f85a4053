/** Cookie headers: the session's `name=value` reader, and the pair of functions the edge
  * writes and reads a phone's cookies with. */
module Cookies {
  import opened Options
  import opened Text

  datatype Pair = Pair(name: string, value: string)

  // ---- trimming and splitting at the first `=` ----

  predicate Trimmed(s: string, space: char -> bool) {
    s != [] && !space(s[0]) && !space(s[|s| - 1])
  }

  function IndexOf(s: string, c: char): (at: Option<nat>)
    ensures at.Some? ==> at.value < |s| && s[at.value] == c && c !in s[..at.value]
    ensures at.None? ==> c !in s
  {
    if s == [] then None
    else if s[0] == c then Some(0)
    else match IndexOf(s[1..], c)
      case Some(i) => Some(i + 1)
      case None => None
  }

  /** The pair one piece of a header holds, if it has a name and a value. */
  function ReadPair(part: string, space: char -> bool): Option<Pair> {
    var pair := Trim(part, space);
    match IndexOf(pair, '=')
    case None => None
    case Some(eq) =>
      var name := Trim(pair[..eq], space);
      var value := Trim(pair[eq + 1..], space);
      if name == [] || value == [] then None else Some(Pair(name, value))
  }

  /** What a reader gives back unchanged. */
  predicate WellFormed(pair: Pair, space: char -> bool) {
    && Trimmed(pair.name, space) && Trimmed(pair.value, space)
    && '=' !in pair.name && ';' !in pair.name && ';' !in pair.value
  }

  lemma {:induction false} TrimStartKeeps(s: string, space: char -> bool)
    ensures TrimStart(s, space) != [] ==> !space(TrimStart(s, space)[0])
    ensures forall c <- TrimStart(s, space) :: c in s
  {
    if s != [] && space(s[0]) {
      TrimStartKeeps(s[1..], space);
    }
  }

  lemma {:induction false} TrimEndKeeps(s: string, space: char -> bool)
    ensures TrimEnd(s, space) <= s
    ensures TrimEnd(s, space) != [] ==> !space(TrimEnd(s, space)[|TrimEnd(s, space)| - 1])
  {
    if s != [] && space(s[|s| - 1]) {
      TrimEndKeeps(s[..|s| - 1], space);
    }
  }

  lemma TrimTrims(s: string, space: char -> bool)
    ensures Trim(s, space) != [] ==> Trimmed(Trim(s, space), space)
    ensures forall c <- Trim(s, space) :: c in s
  {
    var start := TrimStart(s, space);
    TrimStartKeeps(s, space);
    TrimEndKeeps(start, space);
    forall c | c in Trim(s, space) ensures c in s {
      assert c in start;
    }
  }

  lemma TrimOfTrimmed(s: string, space: char -> bool)
    requires Trimmed(s, space)
    ensures Trim(s, space) == s
  {
  }

  /** A pair read from a piece without `;` is well formed. */
  lemma ReadIsWellFormed(part: string, space: char -> bool)
    requires ';' !in part
    ensures ReadPair(part, space).Some? ==> WellFormed(ReadPair(part, space).value, space)
  {
    var pair := Trim(part, space);
    TrimTrims(part, space);
    var eq := IndexOf(pair, '=');
    if eq.Some? {
      TrimTrims(pair[..eq.value], space);
      TrimTrims(pair[eq.value + 1..], space);
    }
  }

  lemma {:induction false} FirstEquals(name: string, value: string)
    requires '=' !in name
    ensures IndexOf(name + "=" + value, '=') == Some(|name|)
  {
    var s := name + "=" + value;
    if name != [] {
      FirstEquals(name[1..], value);
      assert s[1..] == name[1..] + "=" + value;
      assert name[0] in name;
    }
  }

  function PairText(pair: Pair): string {
    pair.name + "=" + pair.value
  }

  /** A well-formed pair reads back from its text, with or without a space before it. */
  lemma PairReadsBack(pair: Pair, space: char -> bool)
    requires WellFormed(pair, space) && space(' ')
    ensures ReadPair(PairText(pair), space) == Some(pair)
    ensures ReadPair(" " + PairText(pair), space) == Some(pair)
  {
    var text := PairText(pair);
    assert Trimmed(text, space);
    TrimOfTrimmed(text, space);
    assert (" " + text)[1..] == text;
    assert TrimStart(" " + text, space) == TrimStart(text, space) == text;
    FirstEquals(pair.name, pair.value);
    assert text[..|pair.name|] == pair.name && text[|pair.name| + 1..] == pair.value;
    TrimOfTrimmed(pair.name, space);
    TrimOfTrimmed(pair.value, space);
  }

  // ---- printing: section 4.2.1 of RFC 6265 ----

  function Texts(pairs: seq<Pair>): (texts: seq<string>)
    ensures |texts| == |pairs|
  {
    seq(|pairs|, i requires 0 <= i < |pairs| => PairText(pairs[i]))
  }

  /** `name=value; name=value`. */
  function ToHeader(pairs: seq<Pair>): string {
    Join(Texts(pairs), "; ")
  }

  predicate IsSemicolon(c: char) {
    c == ';'
  }

  /** The pieces of a printed header: each text, all but the first after a space. */
  function Pieces(pairs: seq<Pair>): (pieces: seq<string>)
    ensures |pieces| == |pairs|
  {
    seq(|pairs|, i requires 0 <= i < |pairs| => if i == 0 then PairText(pairs[i]) else " " + PairText(pairs[i]))
  }

  lemma NoSemicolon(pair: Pair, space: char -> bool)
    requires WellFormed(pair, space)
    ensures forall c <- PairText(pair) :: !IsSemicolon(c)
  {
  }

  lemma HeaderOfMore(pairs: seq<Pair>)
    requires |pairs| > 1
    ensures ToHeader(pairs) == PairText(pairs[0]) + "; " + ToHeader(pairs[1..])
  {
    assert Texts(pairs)[1..] == Texts(pairs[1..]);
  }

  lemma HeaderOfOne(pairs: seq<Pair>)
    requires |pairs| == 1
    ensures ToHeader(pairs) == PairText(pairs[0]) && Pieces(pairs)[1..] == []
  {
    assert Texts(pairs) == [PairText(pairs[0])];
  }

  lemma PiecesOfMore(pairs: seq<Pair>)
    requires |pairs| > 1
    ensures Pieces(pairs)[1..] == [" " + PairText(pairs[1])] + Pieces(pairs[1..])[1..]
  {
  }

  lemma {:induction false} SplitOfPrinted(lead: string, pairs: seq<Pair>, space: char -> bool)
    requires pairs != [] && forall p <- pairs :: WellFormed(p, space)
    requires forall c <- lead :: !IsSemicolon(c)
    ensures Split(lead + ToHeader(pairs), IsSemicolon) == [lead + PairText(pairs[0])] + Pieces(pairs)[1..]
    decreases |pairs|
  {
    var head := lead + PairText(pairs[0]);
    assert pairs[0] in pairs;
    NoSemicolon(pairs[0], space);
    if |pairs| == 1 {
      HeaderOfOne(pairs);
      SplitPlain(head, IsSemicolon);
    } else {
      var rest := pairs[1..];
      var tail := " " + ToHeader(rest);
      HeaderOfMore(pairs);
      assert lead + ToHeader(pairs) == head + [';'] + tail;
      SplitAtSeparator(head, ';', tail, IsSemicolon);
      SplitOfPrinted(" ", rest, space);
      PiecesOfMore(pairs);
    }
  }

  // ---- the edge's reader ----

  datatype EditorCookie = EditorCookie(name: string, value: string, id: nat)

  function CookiesFrom(parts: seq<string>, index: nat): seq<EditorCookie> {
    if parts == [] then []
    else
      var rest := CookiesFrom(parts[1..], index + 1);
      match ReadPair(parts[0], JsSpace)
      case None => rest
      case Some(pair) => [EditorCookie(pair.name, pair.value, index + 1)] + rest
  }

  function FromHeader(header: string): seq<EditorCookie> {
    CookiesFrom(Split(header, IsSemicolon), 0)
  }

  function PairsOf(cookies: seq<EditorCookie>): seq<Pair> {
    seq(|cookies|, i requires 0 <= i < |cookies| => Pair(cookies[i].name, cookies[i].value))
  }

  lemma {:induction false} CookiesAreWellFormed(parts: seq<string>, index: nat)
    requires forall p <- parts :: ';' !in p
    ensures forall c <- CookiesFrom(parts, index) :: WellFormed(Pair(c.name, c.value), JsSpace)
  {
    if parts != [] {
      assert parts[0] in parts;
      ReadIsWellFormed(parts[0], JsSpace);
      CookiesAreWellFormed(parts[1..], index + 1);
    }
  }

  lemma {:induction false} CookiesOfPieces(parts: seq<string>, pairs: seq<Pair>, index: nat)
    requires |parts| == |pairs|
    requires forall i :: 0 <= i < |parts| ==> ReadPair(parts[i], JsSpace) == Some(pairs[i])
    ensures var cookies := CookiesFrom(parts, index);
            && |cookies| == |pairs|
            && forall i :: 0 <= i < |pairs| ==> cookies[i] == EditorCookie(pairs[i].name, pairs[i].value, index + i + 1)
  {
    if parts != [] {
      CookiesOfPieces(parts[1..], pairs[1..], index + 1);
    }
  }

  lemma PiecesReadBack(pairs: seq<Pair>, space: char -> bool)
    requires pairs != [] && space(' ') && forall p <- pairs :: WellFormed(p, space)
    ensures Split(ToHeader(pairs), IsSemicolon) == Pieces(pairs)
    ensures forall i :: 0 <= i < |pairs| ==> ReadPair(Pieces(pairs)[i], space) == Some(pairs[i])
  {
    SplitOfPrinted("", pairs, space);
    assert "" + ToHeader(pairs) == ToHeader(pairs) && "" + PairText(pairs[0]) == PairText(pairs[0]);
    assert Pieces(pairs) == [PairText(pairs[0])] + Pieces(pairs)[1..];
    forall i | 0 <= i < |pairs| ensures ReadPair(Pieces(pairs)[i], space) == Some(pairs[i]) {
      assert pairs[i] in pairs;
      PairReadsBack(pairs[i], space);
    }
  }

  /** Whatever the edge reads is well formed. */
  lemma ReadsWellFormed(header: string)
    ensures forall p <- PairsOf(FromHeader(header)) :: WellFormed(p, JsSpace)
  {
    var read := FromHeader(header);
    PiecesHaveNoSeparator(header, IsSemicolon);
    CookiesAreWellFormed(Split(header, IsSemicolon), 0);
    forall p | p in PairsOf(read) ensures WellFormed(p, JsSpace) {
      var i :| 0 <= i < |read| && PairsOf(read)[i] == p;
      assert read[i] in read;
    }
  }

  lemma WellFormedReadBack(pairs: seq<Pair>)
    requires forall p <- pairs :: WellFormed(p, JsSpace)
    ensures PairsOf(FromHeader(ToHeader(pairs))) == pairs
    ensures var read := FromHeader(ToHeader(pairs)); forall i :: 0 <= i < |read| ==> read[i].id == i + 1
  {
    var header := ToHeader(pairs);
    if pairs == [] {
      assert header == [];
      assert Split(header, IsSemicolon) == [""];
      assert CookiesFrom([""][1..], 1) == [];
      assert FromHeader(header) == [];
    } else {
      PiecesReadBack(pairs, JsSpace);
      CookiesOfPieces(Pieces(pairs), pairs, 0);
      assert PairsOf(FromHeader(header)) == pairs;
    }
  }

  /** The edge reads back exactly the cookies it wrote just when all are well formed; they
    * are then numbered from one. */
  lemma HeaderReadsBack(pairs: seq<Pair>)
    ensures PairsOf(FromHeader(ToHeader(pairs))) == pairs <==> forall p <- pairs :: WellFormed(p, JsSpace)
    ensures (forall p <- pairs :: WellFormed(p, JsSpace)) ==>
              var read := FromHeader(ToHeader(pairs)); forall i :: 0 <= i < |read| ==> read[i].id == i + 1
  {
    ReadsWellFormed(ToHeader(pairs));
    if forall p <- pairs :: WellFormed(p, JsSpace) {
      WellFormedReadBack(pairs);
    }
  }

  // ---- the session's reader ----

  function Lower(s: string): (t: string)
    ensures |t| == |s|
  {
    seq(|s|, i requires 0 <= i < |s| => if 'A' <= s[i] <= 'Z' then s[i] - 'A' + 'a' else s[i])
  }

  predicate IsAttribute(name: string) {
    Lower(name) in {"path", "domain", "expires", "max-age", "secure", "httponly", "samesite", "priority", "partitioned"}
  }

  /** One letter, whatever its case. */
  predicate SameLetter(a: char, b: char) {
    || a == b
    || ('A' <= a <= 'Z' && 'a' <= b <= 'z' && a - 'A' == b - 'a')
    || ('a' <= a <= 'z' && 'A' <= b <= 'Z' && a - 'a' == b - 'A')
  }

  predicate SameName(a: string, b: string) {
    |a| == |b| && forall i :: 0 <= i < |a| ==> SameLetter(a[i], b[i])
  }

  /** Names are told apart, and attributes known, up to the case of ASCII letters. */
  lemma NamesFoldCase(a: string, b: string)
    ensures Lower(a) == Lower(b) <==> SameName(a, b)
    ensures IsAttribute(b) && SameName(a, b) ==> IsAttribute(a)
    ensures (forall i :: 0 <= i < |b| ==> !('A' <= b[i] <= 'Z')) ==> Lower(b) == b
  {
    if SameName(a, b) {
      assert Lower(a) == Lower(b);
    } else if |a| == |b| {
      var i :| 0 <= i < |a| && !SameLetter(a[i], b[i]);
      assert Lower(a)[i] != Lower(b)[i];
    }
  }

  function UsablePair(part: string): Option<Pair> {
    match ReadPair(part, RustSpace)
    case Some(pair) => if IsAttribute(pair.name) then None else Some(pair)
    case None => None
  }

  function AsList<T>(value: Option<T>): seq<T> {
    match value
    case Some(v) => [v]
    case None => []
  }

  /** The usable pairs of the pieces, in order, repeats and all. */
  function Usable(parts: seq<string>): seq<Pair> {
    if parts == [] then []
    else Usable(parts[..|parts| - 1]) + AsList(UsablePair(parts[|parts| - 1]))
  }

  /** The names of a list of pairs in lower case, each once, as first seen. */
  function FirstSeen(pairs: seq<Pair>): seq<string> {
    if pairs == [] then []
    else
      var names := FirstSeen(pairs[..|pairs| - 1]);
      var name := Lower(pairs[|pairs| - 1].name);
      if name in names then names else names + [name]
  }

  /** The last pair with this lower-case name. */
  function Latest(pairs: seq<Pair>, name: string): Option<Pair> {
    if pairs == [] then None
    else if Lower(pairs[|pairs| - 1].name) == name then Some(pairs[|pairs| - 1])
    else Latest(pairs[..|pairs| - 1], name)
  }

  /** One entry for each name as first seen, holding the last pair of that name. */
  predicate IsCollected(seen: seq<Pair>, pairs: seq<Pair>) {
    var names := FirstSeen(seen);
    && |pairs| == |names|
    && forall i :: 0 <= i < |pairs| ==> Lower(pairs[i].name) == names[i] && Latest(seen, names[i]) == Some(pairs[i])
  }

  predicate AreDistinct(names: seq<string>) {
    forall i, j :: 0 <= i < j < |names| ==> names[i] != names[j]
  }

  lemma {:induction false} NamesAreDistinct(seen: seq<Pair>)
    ensures AreDistinct(FirstSeen(seen))
    ensures forall p <- seen :: Lower(p.name) in FirstSeen(seen)
  {
    if seen != [] {
      var last := seen[|seen| - 1];
      var names := FirstSeen(seen[..|seen| - 1]);
      NamesAreDistinct(seen[..|seen| - 1]);
      assert Lower(last.name) !in names ==> AreDistinct(names + [Lower(last.name)]);
      assert seen == seen[..|seen| - 1] + [last];
    }
  }

  lemma CollectOneMore(seen: seq<Pair>, pairs: seq<Pair>, pair: Pair, at: nat)
    requires IsCollected(seen, pairs) && at <= |pairs|
    requires forall k :: 0 <= k < at ==> Lower(pairs[k].name) != Lower(pair.name)
    requires at < |pairs| ==> Lower(pairs[at].name) == Lower(pair.name)
    ensures IsCollected(seen + [pair], if at < |pairs| then pairs[at := pair] else pairs + [pair])
  {
    var more := seen + [pair];
    assert more[..|more| - 1] == seen;
    NamesAreDistinct(seen);
    if at < |pairs| {
      assert Lower(pair.name) in FirstSeen(seen);
    }
  }

  /** Where a pair's name stands in the list, or the list's end. */
  method FindName(pairs: seq<Pair>, name: string) returns (at: nat)
    ensures at <= |pairs|
    ensures forall k :: 0 <= k < at ==> Lower(pairs[k].name) != Lower(name)
    ensures at < |pairs| ==> Lower(pairs[at].name) == Lower(name)
  {
    at := 0;
    while at < |pairs| && Lower(pairs[at].name) != Lower(name)
      invariant 0 <= at <= |pairs|
      invariant forall k :: 0 <= k < at ==> Lower(pairs[k].name) != Lower(name)
    {
      at := at + 1;
    }
  }

  /** Replaces the entry of the pair's name, or adds one at the end. */
  method Collect(pairs: seq<Pair>, pair: Pair, ghost seen: seq<Pair>) returns (more: seq<Pair>)
    requires IsCollected(seen, pairs)
    ensures IsCollected(seen + [pair], more)
  {
    var at := FindName(pairs, pair.name);
    CollectOneMore(seen, pairs, pair, at);
    if at < |pairs| {
      more := pairs[at := pair];
    } else {
      more := pairs + [pair];
    }
  }

  /** `parse_cookie_pairs`: names distinct up to ASCII case, in first-seen order, each with
    * its last usable value. */
  method ParseCookiePairs(header: string) returns (pairs: seq<Pair>)
    ensures IsCollected(Usable(Split(header, IsSemicolon)), pairs)
  {
    pairs := [];
    var parts := Split(header, IsSemicolon);
    ghost var seen := [];
    for i := 0 to |parts|
      invariant seen == Usable(parts[..i])
      invariant IsCollected(seen, pairs)
    {
      var usable := UsablePair(parts[i]);
      UsableOneMore(parts, i);
      if usable.Some? {
        pairs := Collect(pairs, usable.value, seen);
        seen := seen + [usable.value];
      }
    }
    assert parts[..|parts|] == parts;
  }

  lemma UsableOneMore(parts: seq<string>, i: nat)
    requires i < |parts|
    ensures Usable(parts[..i + 1]) == Usable(parts[..i]) + AsList(UsablePair(parts[i]))
  {
    assert parts[..i + 1][..i] == parts[..i];
  }

  /** What a parse returns is fixed by its header. */
  lemma CollectedIsUnique(seen: seq<Pair>, a: seq<Pair>, b: seq<Pair>)
    requires IsCollected(seen, a) && IsCollected(seen, b)
    ensures a == b
  {
    forall i | 0 <= i < |a| ensures a[i] == b[i] {
      assert Latest(seen, FirstSeen(seen)[i]) == Some(a[i]);
    }
  }

  lemma {:induction false} UsableAreWellFormed(parts: seq<string>)
    requires forall p <- parts :: ';' !in p
    ensures forall p <- Usable(parts) :: WellFormed(p, RustSpace) && !IsAttribute(p.name)
  {
    if parts != [] {
      var last := |parts| - 1;
      UsableAreWellFormed(parts[..last]);
      assert parts[last] in parts;
      ReadIsWellFormed(parts[last], RustSpace);
    }
  }

  lemma {:induction false} LatestIsOneOf(seen: seq<Pair>, name: string)
    ensures Latest(seen, name).Some? ==> Latest(seen, name).value in seen
  {
    if seen != [] {
      LatestIsOneOf(seen[..|seen| - 1], name);
    }
  }

  /** Pairs with distinct names collect to themselves. */
  lemma {:induction false} DistinctCollect(pairs: seq<Pair>)
    requires forall i, j :: 0 <= i < j < |pairs| ==> Lower(pairs[i].name) != Lower(pairs[j].name)
    ensures IsCollected(pairs, pairs)
  {
    if pairs != [] {
      var but := pairs[..|pairs| - 1];
      DistinctCollect(but);
      CollectOneMore(but, but, pairs[|pairs| - 1], |but|);
      assert but + [pairs[|pairs| - 1]] == pairs;
    }
  }

  /** From the last part back, each reads as its pair. */
  predicate ReadAs(parts: seq<string>, pairs: seq<Pair>) {
    && |parts| == |pairs|
    && (parts != [] ==>
          && UsablePair(parts[|parts| - 1]) == Some(pairs[|parts| - 1])
          && ReadAs(parts[..|parts| - 1], pairs[..|parts| - 1]))
  }

  lemma {:induction false} ReadAsEach(parts: seq<string>, pairs: seq<Pair>)
    requires |parts| == |pairs|
    requires forall i :: 0 <= i < |parts| ==> UsablePair(parts[i]) == Some(pairs[i])
    ensures ReadAs(parts, pairs)
  {
    if parts != [] {
      ReadAsEach(parts[..|parts| - 1], pairs[..|parts| - 1]);
    }
  }

  lemma {:induction false} UsableOfPieces(parts: seq<string>, pairs: seq<Pair>)
    requires ReadAs(parts, pairs)
    ensures Usable(parts) == pairs
  {
    if parts != [] {
      var n := |parts| - 1;
      UsableOfPieces(parts[..n], pairs[..n]);
      assert pairs == pairs[..n] + [pairs[n]];
    }
  }

  lemma CollectedAreUsable(parts: seq<string>, pairs: seq<Pair>)
    requires IsCollected(Usable(parts), pairs) && forall p <- parts :: ';' !in p
    ensures forall p <- pairs :: WellFormed(p, RustSpace) && !IsAttribute(p.name)
  {
    var seen := Usable(parts);
    UsableAreWellFormed(parts);
    forall p | p in pairs ensures p in seen {
      var i :| 0 <= i < |pairs| && pairs[i] == p;
      LatestIsOneOf(seen, FirstSeen(seen)[i]);
    }
  }

  lemma CollectedAreDistinct(seen: seq<Pair>, pairs: seq<Pair>)
    requires IsCollected(seen, pairs)
    ensures forall i, j :: 0 <= i < j < |pairs| ==> Lower(pairs[i].name) != Lower(pairs[j].name)
  {
    NamesAreDistinct(seen);
  }

  /** Printing what a parse gave, as section 4.2.1 of RFC 6265 writes it, and parsing again
    * gives the same pairs; their names are distinct up to ASCII case. */
  lemma ParsePrintParse(header: string, pairs: seq<Pair>, again: seq<Pair>)
    requires IsCollected(Usable(Split(header, IsSemicolon)), pairs)
    ensures forall i, j :: 0 <= i < j < |pairs| ==> Lower(pairs[i].name) != Lower(pairs[j].name)
    ensures IsCollected(Usable(Split(ToHeader(pairs), IsSemicolon)), again) <==> again == pairs
  {
    var parts := Split(header, IsSemicolon);
    PiecesHaveNoSeparator(header, IsSemicolon);
    CollectedAreUsable(parts, pairs);
    CollectedAreDistinct(Usable(parts), pairs);
    PrintedPairs(pairs);
    DistinctCollect(pairs);
    if IsCollected(pairs, again) {
      CollectedIsUnique(pairs, again, pairs);
    }
  }

  lemma PrintedPairs(pairs: seq<Pair>)
    requires forall p <- pairs :: WellFormed(p, RustSpace) && !IsAttribute(p.name)
    ensures Usable(Split(ToHeader(pairs), IsSemicolon)) == pairs
  {
    if pairs == [] {
      assert ToHeader(pairs) == "" && Split("", IsSemicolon) == [""];
      assert UsablePair("") == None && Usable([""][..0]) == [];
    } else {
      PiecesReadBack(pairs, RustSpace);
      forall i | 0 <= i < |pairs| ensures UsablePair(Pieces(pairs)[i]) == Some(pairs[i]) {
        assert pairs[i] in pairs;
      }
      ReadAsEach(Pieces(pairs), pairs);
      UsableOfPieces(Pieces(pairs), pairs);
    }
  }
}
