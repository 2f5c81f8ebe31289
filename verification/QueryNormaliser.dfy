/** Removing literals from SQL text: normalizeQuery in internal/dbwatch/store.go. */
module QueryNormaliser {

  newtype byte = x: int | 0 <= x < 256

  const SINGLE: byte := 39
  const DOUBLE: byte := 34
  const DOT: byte := 46
  const MARK: byte := 63

  predicate IsQuote(c: byte) {
    c == SINGLE || c == DOUBLE
  }

  predicate IsDigit(c: byte) {
    48 <= c <= 57
  }

  predicate InNumber(c: byte) {
    IsDigit(c) || c == DOT
  }

  predicate IsPlain(c: byte) {
    !IsQuote(c) && !IsDigit(c)
  }

  /** Length of the longest prefix made of digits and dots. */
  function NumberLength(s: seq<byte>): (n: nat)
    ensures n <= |s|
    ensures forall i :: 0 <= i < n ==> InNumber(s[i])
    ensures n < |s| ==> !InNumber(s[n])
  {
    if s == [] || !InNumber(s[0]) then 0 else 1 + NumberLength(s[1..])
  }

  /** Length of the text up to the closing quote; all of it if there is none. */
  function QuoteLength(s: seq<byte>, quote: byte): (n: nat)
    ensures n <= |s|
    ensures forall i :: 0 <= i < n ==> s[i] != quote
    ensures n < |s| ==> s[n] == quote
  {
    if s == [] || s[0] == quote then 0 else 1 + QuoteLength(s[1..], quote)
  }

  // ---- Tokens ----

  /** A query is a sequence of plain bytes, numbers and quoted strings; only the last string may be left open. */
  datatype Token =
    | Plain(c: byte)
    | Number(digits: seq<byte>)
    | Quoted(quote: byte, text: seq<byte>)
    | Open(quote: byte, text: seq<byte>)

  predicate WellFormed(t: Token) {
    match t
    case Plain(c) => IsPlain(c)
    case Number(digits) => digits != [] && IsDigit(digits[0]) && forall i :: 0 <= i < |digits| ==> InNumber(digits[i])
    case Quoted(quote, text) => IsQuote(quote) && quote !in text
    case Open(quote, text) => IsQuote(quote) && quote !in text
  }

  function RenderToken(t: Token): seq<byte> {
    match t
    case Plain(c) => [c]
    case Number(digits) => digits
    case Quoted(quote, text) => [quote] + text + [quote]
    case Open(quote, text) => [quote] + text
  }

  function Render(ts: seq<Token>): seq<byte> {
    if ts == [] then [] else RenderToken(ts[0]) + Render(ts[1..])
  }

  /** No number runs on into what follows it, and nothing follows an open string. */
  predicate Separated(ts: seq<Token>) {
    ts != [] ==>
    && WellFormed(ts[0]) && Separated(ts[1..])
    && (ts[0].Number? && |ts| > 1 ==> !ts[1].Number? && ts[1] != Plain(DOT))
    && (ts[0].Open? ==> |ts| == 1)
  }

  /** Each literal becomes one mark. */
  function Skeleton(ts: seq<Token>): seq<byte> {
    if ts == [] then [] else [if ts[0].Plain? then ts[0].c else MARK] + Skeleton(ts[1..])
  }

  /** The first token of a query, and what follows it. */
  function First(s: seq<byte>): Token
    requires s != []
  {
    if IsQuote(s[0]) then
      var n := QuoteLength(s[1..], s[0]);
      if n == |s| - 1 then Open(s[0], s[1..]) else Quoted(s[0], s[1..n + 1])
    else if IsDigit(s[0]) then Number(s[..NumberLength(s)])
    else Plain(s[0])
  }

  function Rest(s: seq<byte>): (r: seq<byte>)
    requires s != []
    ensures |r| < |s|
  {
    if IsQuote(s[0]) then
      var n := QuoteLength(s[1..], s[0]);
      if n == |s| - 1 then [] else s[n + 2..]
    else if IsDigit(s[0]) then s[NumberLength(s)..]
    else s[1..]
  }

  /** Cutting a query into tokens. */
  function Tokenise(s: seq<byte>): seq<Token>
    decreases |s|
  {
    if s == [] then [] else [First(s)] + Tokenise(Rest(s))
  }

  /** What the scanner produces. */
  function Normalise(s: seq<byte>): seq<byte> {
    Skeleton(Tokenise(s))
  }

  // ---- The scanner ----

  /** What is left to produce from position i, outside or inside a string. */
  ghost function Remaining(s: seq<byte>, i: nat, inQuote: bool, quoteChar: byte): seq<byte>
    requires i <= |s|
  {
    if !inQuote then Normalise(s[i..])
    else var n := QuoteLength(s[i..], quoteChar);
         if n == |s| - i then [] else Normalise(s[i + n + 1..])
  }

  method NormalizeQuery(query: seq<byte>) returns (normalized: seq<byte>)
    ensures normalized == Normalise(query)
  {
    hide Remaining, Normalise;
    var inQuote, quoteChar := false, 0 as byte;
    normalized := [];
    ScanStarts(query);
    var i := 0;
    while i < |query|
      invariant 0 <= i <= |query|
      invariant normalized + Remaining(query, i, inQuote, quoteChar) == Normalise(query)
    {
      var c := query[i];
      if !inQuote {
        if IsQuote(c) {
          ScanOpens(query, i);
          inQuote, quoteChar := true, c;
          normalized := normalized + [MARK];
        } else if IsDigit(c) {
          var start := i;
          while i < |query| && InNumber(query[i])
            invariant start <= i <= |query| && forall k :: start <= k < i ==> InNumber(query[k])
          {
            i := i + 1;
          }
          ScanNumber(query, start, i);
          normalized := normalized + [MARK];
          i := i - 1;
        } else {
          ScanPlain(query, i);
          normalized := normalized + [c];
        }
      } else {
        ScanQuoted(query, i, quoteChar);
        if c == quoteChar {
          inQuote := false;
        }
      }
      i := i + 1;
    }
    ScanEnds(query, inQuote, quoteChar);
  }

  lemma ScanStarts(s: seq<byte>)
    ensures Remaining(s, 0, false, 0) == Normalise(s)
  {
    assert s[0..] == s;
  }

  lemma ScanEnds(s: seq<byte>, inQuote: bool, quoteChar: byte)
    ensures Remaining(s, |s|, inQuote, quoteChar) == []
  {
    assert s[|s|..] == [];
  }

  lemma NormaliseStep(s: seq<byte>)
    requires s != []
    ensures Normalise(s) == [if First(s).Plain? then First(s).c else MARK] + Normalise(Rest(s))
  {
    assert Tokenise(s)[1..] == Tokenise(Rest(s));
  }

  lemma ScanPlain(s: seq<byte>, i: nat)
    requires i < |s| && IsPlain(s[i])
    ensures forall q :: Remaining(s, i, false, q) == [s[i]] + Remaining(s, i + 1, false, q)
  {
    hide Normalise;
    NormaliseStep(s[i..]);
    assert s[i..][1..] == s[i + 1..];
  }

  lemma ScanOpens(s: seq<byte>, i: nat)
    requires i < |s| && IsQuote(s[i])
    ensures forall q :: Remaining(s, i, false, q) == [MARK] + Remaining(s, i + 1, true, s[i])
  {
    hide Normalise;
    var rest := s[i..];
    NormaliseStep(rest);
    assert rest[1..] == s[i + 1..];
    var n := QuoteLength(rest[1..], s[i]);
    if n == |rest| - 1 {
      NothingNormal();
    } else {
      assert rest[n + 2..] == s[i + n + 2..];
    }
  }

  lemma NothingNormal()
    ensures Normalise([]) == []
  {
  }

  lemma ScanQuoted(s: seq<byte>, i: nat, quote: byte)
    requires i < |s|
    ensures Remaining(s, i, true, quote) == Remaining(s, i + 1, s[i] != quote, quote)
  {
    hide Normalise;
    var rest := s[i..];
    assert rest[1..] == s[i + 1..];
    assert QuoteLength(rest, quote) == if s[i] == quote then 0 else 1 + QuoteLength(rest[1..], quote);
  }

  lemma ScanNumber(s: seq<byte>, i: nat, j: nat)
    requires i < j <= |s| && IsDigit(s[i])
    requires (forall k :: i <= k < j ==> InNumber(s[k])) && (j < |s| ==> !InNumber(s[j]))
    ensures forall q :: Remaining(s, i, false, q) == [MARK] + Remaining(s, j, false, q)
  {
    hide Normalise;
    var rest := s[i..];
    NumberEnds(rest, j - i);
    NormaliseStep(rest);
    assert rest[j - i..] == s[j..];
  }

  lemma NumberEnds(s: seq<byte>, n: nat)
    requires n <= |s| && (forall k :: 0 <= k < n ==> InNumber(s[k])) && (n < |s| ==> !InNumber(s[n]))
    ensures NumberLength(s) == n
  {
    var m := NumberLength(s);
  }

  // ---- What it means ----

  /** How the rest of a query may begin after a token. */
  predicate MayFollow(t: Token, tail: seq<byte>) {
    (t.Number? && tail != [] ==> !InNumber(tail[0])) && (t.Open? ==> tail == [])
  }

  lemma CutRenders(s: seq<byte>)
    requires s != []
    ensures RenderToken(First(s)) + Rest(s) == s && WellFormed(First(s)) && MayFollow(First(s), Rest(s))
  {
    if IsQuote(s[0]) {
      var body := s[1..];
      var n := QuoteLength(body, s[0]);
      assert s == [s[0]] + body;
      if n < |body| {
        assert s[1..n + 1] == body[..n] && s[n + 2..] == body[n + 1..] && s[n + 1] == body[n];
        assert body == body[..n] + [s[0]] + body[n + 1..];
      }
    }
  }

  lemma CutReads(t: Token, tail: seq<byte>)
    requires WellFormed(t) && MayFollow(t, tail)
    ensures var s := RenderToken(t) + tail; s != [] && First(s) == t && Rest(s) == tail
  {
    var s := RenderToken(t) + tail;
    match t
    case Plain(c) =>
    case Number(digits) =>
      NumberEnds(s, |digits|);
    case Quoted(quote, text) =>
      assert s[1..] == text + [quote] + tail;
      QuoteEnds(s[1..], quote, |text|);
    case Open(quote, text) =>
      assert s[1..] == text;
      QuoteEnds(text, quote, |text|);
  }

  /** A plain byte that is a dot, and a number, are what a number would swallow. */
  lemma FollowsIff(t: Token, ts: seq<Token>)
    requires Separated(ts)
    ensures Separated([t] + ts) <==> WellFormed(t) && MayFollow(t, Render(ts))
  {
    assert ([t] + ts)[1..] == ts;
  }

  /** Cutting into tokens loses nothing and leaves tokens that cannot be confused. */
  lemma {:induction false} TokensRenderBack(s: seq<byte>)
    ensures Render(Tokenise(s)) == s && Separated(Tokenise(s))
    decreases |s|
  {
    hide First, Rest, Separated, WellFormed, MayFollow;
    if s == [] {
      NothingSeparated();
    } else {
      TokensRenderBack(Rest(s));
      CutRenders(s);
      FollowsIff(First(s), Tokenise(Rest(s)));
      assert Tokenise(s)[1..] == Tokenise(Rest(s));
    }
  }

  lemma NothingSeparated()
    ensures Separated([])
  {
  }

  /** ... and rendering such tokens and cutting again gives them back: both ways the correspondence is exact. */
  lemma {:induction false} TokensReadBack(ts: seq<Token>)
    requires Separated(ts)
    ensures Tokenise(Render(ts)) == ts
  {
    if ts != [] {
      hide First, Rest, WellFormed, MayFollow;
      TokensReadBack(ts[1..]);
      assert ts == [ts[0]] + ts[1..];
      FollowsIff(ts[0], ts[1..]);
      CutReads(ts[0], Render(ts[1..]));
    }
  }

  lemma QuoteEnds(s: seq<byte>, quote: byte, n: nat)
    requires n <= |s| && (forall k :: 0 <= k < n ==> s[k] != quote) && (n < |s| ==> s[n] == quote)
    ensures QuoteLength(s, quote) == n
  {
    var m := QuoteLength(s, quote);
  }

  /** A query built from separated tokens normalises to its skeleton. */
  lemma NormaliseIsSkeleton(ts: seq<Token>)
    requires Separated(ts)
    ensures Normalise(Render(ts)) == Skeleton(ts)
  {
    TokensReadBack(ts);
  }

  /** Two tokens that differ at most in their literal. */
  predicate SameKind(t: Token, u: Token) {
    (t.Plain? || u.Plain?) ==> t == u
  }

  lemma {:induction false} SameSkeleton(ts: seq<Token>, us: seq<Token>)
    requires |ts| == |us| && forall i :: 0 <= i < |ts| ==> SameKind(ts[i], us[i])
    ensures Skeleton(ts) == Skeleton(us)
  {
    if ts != [] {
      assert SameKind(ts[0], us[0]);
      assert forall i :: 0 <= i < |ts| - 1 ==> ts[1..][i] == ts[i + 1] && us[1..][i] == us[i + 1];
      SameSkeleton(ts[1..], us[1..]);
    }
  }

  /** Replacing literals by other literals leaves the normal form unchanged. */
  lemma LiteralsDoNotMatter(ts: seq<Token>, us: seq<Token>)
    requires Separated(ts) && Separated(us)
    requires |ts| == |us| && forall i :: 0 <= i < |ts| ==> SameKind(ts[i], us[i])
    ensures Normalise(Render(ts)) == Normalise(Render(us))
  {
    NormaliseIsSkeleton(ts);
    NormaliseIsSkeleton(us);
    SameSkeleton(ts, us);
  }

  ghost predicate Clean(s: seq<byte>) {
    forall i :: 0 <= i < |s| ==> IsPlain(s[i])
  }

  lemma {:induction false} SkeletonIsClean(ts: seq<Token>)
    requires Separated(ts)
    ensures Clean(Skeleton(ts))
  {
    if ts != [] {
      SkeletonIsClean(ts[1..]);
    }
  }

  /** The result has no digit and no quote, single or double. */
  lemma NormaliseIsClean(s: seq<byte>)
    ensures Clean(Normalise(s))
    ensures forall c :: c in Normalise(s) ==> c != 39 && c != 34 && !(48 <= c <= 57)
  {
    TokensRenderBack(s);
    SkeletonIsClean(Tokenise(s));
  }

  lemma {:induction false} CleanIsNormal(s: seq<byte>)
    requires Clean(s)
    ensures Normalise(s) == s
  {
    if s != [] {
      assert forall i :: 0 <= i < |s| - 1 ==> s[1..][i] == s[i + 1];
      CleanIsNormal(s[1..]);
      NormaliseStep(s);
    }
  }

  /** Normalising twice changes nothing; a text is normal exactly if it has no digit and no quote. */
  lemma NormaliseIsIdempotent(s: seq<byte>)
    ensures Normalise(Normalise(s)) == Normalise(s)
    ensures Normalise(s) == s <==> Clean(s)
  {
    NormaliseIsClean(s);
    CleanIsNormal(Normalise(s));
    if Clean(s) {
      CleanIsNormal(s);
    }
  }

  /** The query a=1.5'x' becomes a=?? */
  lemma Example()
    ensures Normalise([97, 61, 49, 46, 53, 39, 120, 39]) == [97, 61, 63, 63]
  {
    var ts := [Plain(97), Plain(61), Number([49, 46, 53]), Quoted(39, [120])];
    var t1, t2, t3 := ts[1..], ts[2..], ts[3..];
    assert t1[1..] == t2 && t2[1..] == t3 && t3[1..] == [];
    assert Render(t3) == [39, 120, 39];
    assert Render(t2) == [49, 46, 53, 39, 120, 39];
    assert Render(t1) == [61] + Render(t2);
    assert Render(ts) == [97, 61, 49, 46, 53, 39, 120, 39];
    assert Separated(t3) && Separated(t2) && Separated(t1) && Separated(ts);
    assert Skeleton(t3) == [63] && Skeleton(t2) == [63, 63] && Skeleton(t1) == [61, 63, 63];
    assert Skeleton(ts) == [97, 61, 63, 63];
    NormaliseIsSkeleton(ts);
  }
}
