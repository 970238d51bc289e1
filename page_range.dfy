/** The page-selection parser `parse_pages` (app.py:210-227): a
    comma-separated list of 1-based page numbers `n` and ranges `a-b`,
    turned into the ascending list of selected 0-based page indices. */
module PageRange {
  import opened Wrappers
  import opened Strings
  import opened Ordering

  /** Why parsing raised `ValueError`. */
  datatype ParseError =
    | NotAnInteger(text: string)  // `int(text)` failed
    | NotARange(token: string)    // `start, end = token.split("-")` did not unpack to two

  function Max(a: int, b: int): int { if a < b then b else a }

  function Min(a: int, b: int): int { if a < b then a else b }

  /** `set(range(lo, hi))`. */
  function Interval(lo: int, hi: int): (r: set<nat>)
    ensures forall i: nat :: i in r <==> lo <= i < hi
    decreases hi - lo
  {
    if hi <= lo || hi <= 0 then {} else Interval(lo, hi - 1) + {(hi - 1) as nat}
  }

  /** A well-formed piece of the expression: a 1-based page number `n` or
      a 1-based inclusive range `a-b`. */
  datatype Token = Single(number: nat) | Span(first: nat, last: nat)

  /** How one comma-separated piece is read (app.py:216-223): stripped;
      with a dash it must split into exactly two integers, otherwise it must
      be one integer. */
  function ParseToken(part: string): Result<Token, ParseError>
  {
    var token := Strip(part);
    if '-' in token then
      var bounds := Split(token, '-');
      if |bounds| != 2 then Err(NotARange(token))
      else match ParseInt(bounds[0])
        case None => Err(NotAnInteger(bounds[0]))
        case Some(a) =>
          match ParseInt(bounds[1])
          case None => Err(NotAnInteger(bounds[1]))
          case Some(b) => Ok(Span(a, b))
    else
      match ParseInt(token)
      case None => Err(NotAnInteger(token))
      case Some(n) => Ok(Single(n))
  }

  /** The 0-based pages a token adds (app.py:219-225): a single page only
      when in range; a range clamped to `[max(0, a-1), min(total, b))`. */
  function TokenPages(t: Token, total: nat): set<nat>
  {
    match t
    case Single(n) =>
      var pageNum := n - 1;
      if 0 <= pageNum < total then {pageNum as nat} else {}
    case Span(a, b) => Interval(Max(0, a - 1), Min(total, b))
  }

  /** Every piece read on its own, in order. */
  function ParseAll(parts: seq<string>): seq<Result<Token, ParseError>>
  {
    if |parts| == 0 then []
    else ParseAll(parts[..|parts| - 1]) + [ParseToken(parts[|parts| - 1])]
  }

  lemma {:induction false} ParseAllAt(parts: seq<string>)
    ensures |ParseAll(parts)| == |parts|
    ensures forall k :: 0 <= k < |parts| ==> ParseAll(parts)[k] == ParseToken(parts[k])
  {
    if |parts| > 0 {
      var init := parts[..|parts| - 1];
      ParseAllAt(init);
      var all := ParseAll(parts);
      assert all == ParseAll(init) + [ParseToken(parts[|parts| - 1])];
      forall k | 0 <= k < |parts| ensures all[k] == ParseToken(parts[k]) {
        if k < |init| {
          assert all[k] == ParseAll(init)[k];
          assert init[k] == parts[k];
        }
      }
    }
  }

  /** The set the loop accumulates over the read pieces, or the error of
      the first piece that raises. */
  function Collect(tokens: seq<Result<Token, ParseError>>, total: nat): Result<set<nat>, ParseError>
  {
    if |tokens| == 0 then Ok({})
    else
      match Collect(tokens[..|tokens| - 1], total)
      case Err(e) => Err(e)
      case Ok(pages) =>
        match tokens[|tokens| - 1]
        case Err(e) => Err(e)
        case Ok(t) => Ok(pages + TokenPages(t, total))
  }

  /** The members of `pages` in `[lo, hi)`, in ascending order: Python's
      `sorted` on a set of page indices below `hi`. */
  function Ascending(pages: set<nat>, lo: nat, hi: nat): seq<nat>
    decreases hi - lo
  {
    if lo >= hi then []
    else (if lo in pages then [lo] else []) + Ascending(pages, lo + 1, hi)
  }

  /** The listing is strictly ascending and holds exactly the members of
      `pages` in `[lo, hi)`. */
  lemma {:induction false} AscendingSpec(pages: set<nat>, lo: nat, hi: nat)
    ensures StrictlyAscending(Ascending(pages, lo, hi))
    ensures forall x :: x in Ascending(pages, lo, hi) <==> x in pages && lo <= x < hi
    decreases hi - lo
  {
    if lo < hi {
      AscendingSpec(pages, lo + 1, hi);
      var rest := Ascending(pages, lo + 1, hi);
      if lo in pages {
        var r := Ascending(pages, lo, hi);
        assert r == [lo] + rest;
        forall i, j | 0 <= i < j < |r| ensures r[i] < r[j] {
          assert r[j] == rest[j - 1] && rest[j - 1] in rest;
          if i > 0 {
            assert r[i] == rest[i - 1];
          }
        }
      }
    }
  }

  /** `parse_pages(expr, total)`: the selected indices, sorted. */
  function Selection(expr: string, total: nat): Result<seq<nat>, ParseError>
  {
    match Collect(ParseAll(Split(expr, ',')), total)
    case Err(e) => Err(e)
    case Ok(pages) => Ok(Ascending(pages, 0, total))
  }

  /** parse_pages (app.py:210-227): the loop over the comma-separated
      pieces, adding each piece's pages to a set (a clamped range with
      `update`, an in-range single page with `add`), then sorting it. The
      first piece that does not read as a number or a range ends the parse
      with its error. */
  method ParsePages(pagesParam: string, total: nat) returns (r: Result<seq<nat>, ParseError>)
    ensures r == Selection(pagesParam, total)
  {
    var pages: set<nat> := {};
    var parts := Split(pagesParam, ',');
    for k := 0 to |parts|
      invariant Collect(ParseAll(parts[..k]), total) == Ok(pages)
    {
      var token := ParseToken(parts[k]);
      if token.Err? {
        StepError(parts, k, total, pages);
        return Err(token.error);
      }
      CollectStep(parts, k, total, pages, token.value);
      var t := token.value;
      if t.Span? {
        var start := Max(0, t.first - 1);
        var end := Min(total, t.last);
        assert TokenPages(t, total) == Interval(start, end);
        pages := pages + Interval(start, end);
      } else {
        var pageNum := t.number - 1;
        if 0 <= pageNum < total {
          assert TokenPages(t, total) == {pageNum as nat};
          pages := pages + {pageNum as nat};
        } else {
          assert TokenPages(t, total) == {};
          assert pages + {} == pages;
        }
      }
    }
    assert parts[..|parts|] == parts;
    r := Ok(Ascending(pages, 0, total));
  }

  /** One more well-formed piece adds its pages to the collected set. */
  lemma CollectStep(parts: seq<string>, k: nat, total: nat, pages: set<nat>, t: Token)
    requires k < |parts|
    requires Collect(ParseAll(parts[..k]), total) == Ok(pages)
    requires ParseToken(parts[k]) == Ok(t)
    ensures Collect(ParseAll(parts[..k + 1]), total) == Ok(pages + TokenPages(t, total))
  {
    assert parts[..k + 1][..k] == parts[..k];
    assert ParseAll(parts[..k + 1]) == ParseAll(parts[..k]) + [ParseToken(parts[k])];
  }

  /** A piece that raises ends the parse with its error. */
  lemma StepError(parts: seq<string>, k: nat, total: nat, pages: set<nat>)
    requires k < |parts|
    requires Collect(ParseAll(parts[..k]), total) == Ok(pages)
    requires ParseToken(parts[k]).Err?
    ensures Collect(ParseAll(parts), total) == Err(ParseToken(parts[k]).error)
  {
    assert parts[..k + 1][..k] == parts[..k];
    assert ParseAll(parts[..k + 1]) == ParseAll(parts[..k]) + [ParseToken(parts[k])];
    ErrorPersists(parts, k + 1, total);
  }

  /** Once a piece raises, the rest of the expression is not looked at. */
  lemma {:induction false} ErrorPersists(parts: seq<string>, k: nat, total: nat)
    requires k <= |parts|
    requires Collect(ParseAll(parts[..k]), total).Err?
    ensures Collect(ParseAll(parts), total) == Collect(ParseAll(parts[..k]), total)
    decreases |parts| - k
  {
    if k < |parts| {
      assert parts[..k + 1][..k] == parts[..k];
      assert ParseAll(parts[..k + 1]) == ParseAll(parts[..k]) + [ParseToken(parts[k])];
      ErrorPersists(parts, k + 1, total);
    } else {
      assert parts[..k] == parts;
    }
  }

  /** Whether a read piece adds page index `i`. */
  predicate Adds(t: Result<Token, ParseError>, total: nat, i: nat)
  {
    t.Ok? && i in TokenPages(t.value, total)
  }

  /** A token only ever adds indices below the page count. */
  lemma TokenPagesBelow(t: Token, total: nat)
    ensures forall i :: i in TokenPages(t, total) ==> i < total
  {
  }

  /** The pieces are collected exactly when every piece parses, and then
      the selected set is the union of what the pieces add, each below the
      page count. */
  lemma {:induction false} CollectUnion(tokens: seq<Result<Token, ParseError>>, total: nat)
    ensures Collect(tokens, total).Ok? <==> forall k :: 0 <= k < |tokens| ==> tokens[k].Ok?
    ensures Collect(tokens, total).Ok? ==>
            forall i: nat :: i in Collect(tokens, total).value <==>
              exists k :: 0 <= k < |tokens| && Adds(tokens[k], total, i)
    ensures Collect(tokens, total).Ok? ==>
            forall i :: i in Collect(tokens, total).value ==> i < total
  {
    CollectOkIff(tokens, total);
    if Collect(tokens, total).Ok? {
      CollectMembers(tokens, total);
    }
  }

  lemma {:induction false} CollectOkIff(tokens: seq<Result<Token, ParseError>>, total: nat)
    ensures Collect(tokens, total).Ok? <==> forall k :: 0 <= k < |tokens| ==> tokens[k].Ok?
  {
    if |tokens| > 0 {
      var init := tokens[..|tokens| - 1];
      CollectOkIff(init, total);
      assert forall k :: 0 <= k < |init| ==> init[k] == tokens[k];
    }
  }

  lemma {:induction false} CollectMembers(tokens: seq<Result<Token, ParseError>>, total: nat)
    requires Collect(tokens, total).Ok?
    ensures forall i: nat :: i in Collect(tokens, total).value <==>
              exists k :: 0 <= k < |tokens| && Adds(tokens[k], total, i)
    ensures forall i :: i in Collect(tokens, total).value ==> i < total
  {
    if |tokens| > 0 {
      var init := tokens[..|tokens| - 1];
      var last := tokens[|tokens| - 1];
      assert Collect(init, total).Ok? && last.Ok?;
      CollectMembers(init, total);
      var prev := Collect(init, total).value;
      var added := TokenPages(last.value, total);
      assert Collect(tokens, total).value == prev + added;
      TokenPagesBelow(last.value, total);
      forall i: nat
        ensures i in prev + added <==> exists k :: 0 <= k < |tokens| && Adds(tokens[k], total, i)
      {
        if i in prev {
          var k :| 0 <= k < |init| && Adds(init[k], total, i);
          assert init[k] == tokens[k];
        } else if i in added {
          assert Adds(tokens[|tokens| - 1], total, i);
        }
        if exists k :: 0 <= k < |tokens| && Adds(tokens[k], total, i) {
          var k :| 0 <= k < |tokens| && Adds(tokens[k], total, i);
          if k < |init| {
            assert init[k] == tokens[k];
          }
        }
      }
    }
  }

  /** Every selected index is a valid 0-based page index, and the list is
      strictly ascending, so it holds no duplicates. */
  lemma SelectionInRange(expr: string, total: nat)
    requires Selection(expr, total).Ok?
    ensures forall k :: 0 <= k < |Selection(expr, total).value| ==>
              Selection(expr, total).value[k] < total
    ensures StrictlyAscending(Selection(expr, total).value)
  {
    var tokens := ParseAll(Split(expr, ','));
    CollectUnion(tokens, total);
    AscendingSpec(Collect(tokens, total).value, 0, total);
    var r := Selection(expr, total).value;
    forall k | 0 <= k < |r| ensures r[k] < total {
      assert r[k] in r;
    }
  }

  /** What the selection holds: it fails exactly when some piece fails, and
      otherwise an index is selected exactly when some piece adds it. */
  lemma SelectionMembers(expr: string, total: nat)
    ensures Selection(expr, total).Ok? <==>
            forall p :: p in Split(expr, ',') ==> ParseToken(p).Ok?
    ensures Selection(expr, total).Ok? ==>
            forall i: nat :: i in Selection(expr, total).value <==>
              exists p :: p in Split(expr, ',') && Adds(ParseToken(p), total, i)
  {
    var parts := Split(expr, ',');
    var tokens := ParseAll(parts);
    ParseAllAt(parts);
    CollectUnion(tokens, total);
    if Collect(tokens, total).Ok? {
      AscendingSpec(Collect(tokens, total).value, 0, total);
      forall i: nat | i in Selection(expr, total).value
        ensures exists p :: p in parts && Adds(ParseToken(p), total, i)
      {
        var k :| 0 <= k < |tokens| && Adds(tokens[k], total, i);
        assert parts[k] in parts;
      }
      forall i: nat, p | p in parts && Adds(ParseToken(p), total, i)
        ensures i in Selection(expr, total).value
      {
        var k :| 0 <= k < |parts| && parts[k] == p;
        assert Adds(tokens[k], total, i);
      }
    } else {
      var k :| 0 <= k < |tokens| && !tokens[k].Ok?;
      assert parts[k] in parts;
    }
  }

  /** Two strictly ascending lists with the same members are the same
      list: the result is THE sorted listing of the selected set. */
  lemma {:induction false} AscendingUnique(a: seq<nat>, b: seq<nat>)
    requires StrictlyAscending(a) && StrictlyAscending(b)
    requires forall x :: x in a <==> x in b
    ensures a == b
  {
    assert |a| == 0 <==> |b| == 0 by {
      if |a| > 0 { assert a[0] in a; }
      if |b| > 0 { assert b[0] in b; }
    }
    if a != [] {
      assert a[0] in a;
      assert b[0] in b;
      assert a[0] == b[0] by {
        var i :| 0 <= i < |b| && b[i] == a[0];
        var j :| 0 <= j < |a| && a[j] == b[0];
        assert b[0] <= b[i];
        assert a[0] <= a[j];
      }
      forall x ensures x in a[1..] <==> x in b[1..] {
        if x in a[1..] {
          var j :| 1 <= j < |a| && a[j] == x;
          assert a[0] < x;
          assert x in b;
        }
        if x in b[1..] {
          var j :| 1 <= j < |b| && b[j] == x;
          assert b[0] < x;
          assert x in a;
        }
      }
      AscendingUnique(a[1..], b[1..]);
      assert a == [a[0]] + a[1..] && b == [b[0]] + b[1..];
    }
  }

  /** The order of the pieces does not matter: two expressions whose pieces
      are the same up to order and repetition both fail or select the
      same pages. */
  lemma SelectionOrderIndependent(e1: string, e2: string, total: nat)
    requires forall p :: p in Split(e1, ',') <==> p in Split(e2, ',')
    ensures Selection(e1, total).Ok? <==> Selection(e2, total).Ok?
    ensures Selection(e1, total).Ok? ==> Selection(e1, total) == Selection(e2, total)
  {
    SelectionMembers(e1, total);
    SelectionMembers(e2, total);
    if Selection(e1, total).Ok? {
      var r1, r2 := Selection(e1, total).value, Selection(e2, total).value;
      forall i: nat ensures i in r1 <==> i in r2 {
      }
      SelectionInRange(e1, total);
      SelectionInRange(e2, total);
      AscendingUnique(r1, r2);
    }
  }

  /** `list(range(lo, hi))`: the consecutive indices from `lo` below `hi`. */
  function Run(lo: nat, hi: int): seq<nat>
    decreases hi - lo
  {
    if hi <= lo then [] else [lo] + Run(lo + 1, hi)
  }

  lemma {:induction false} RunSpec(lo: nat, hi: int)
    ensures StrictlyAscending(Run(lo, hi))
    ensures forall x :: x in Run(lo, hi) <==> lo <= x < hi
    decreases hi - lo
  {
    if lo < hi {
      RunSpec(lo + 1, hi);
      var r := Run(lo, hi);
      forall i, j | 0 <= i < j < |r| ensures r[i] < r[j] {
        assert r[j] == Run(lo + 1, hi)[j - 1] && r[j] in Run(lo + 1, hi);
        if i > 0 {
          assert r[i] == Run(lo + 1, hi)[i - 1];
        }
      }
    }
  }

  /** The selection is determined by the set the pieces add: any strictly
      ascending listing of that set is the result. */
  lemma SelectionIs(expr: string, total: nat, pages: set<nat>, r: seq<nat>)
    requires Collect(ParseAll(Split(expr, ',')), total) == Ok(pages)
    requires StrictlyAscending(r)
    requires forall x :: x in r <==> x in pages
    ensures Selection(expr, total) == Ok(r)
  {
    CollectUnion(ParseAll(Split(expr, ',')), total);
    AscendingSpec(pages, 0, total);
    AscendingUnique(Ascending(pages, 0, total), r);
  }

  /** A piece that is a plain decimal number reads as that page number. */
  lemma NumberToken(n: nat)
    ensures ParseToken(Decimal(n)) == Ok(Single(n))
  {
    var d := Decimal(n);
    StripUnchanged(d);
    ParseDecimal(n);
    NoDashInDigits(d);
  }

  /** A piece `a-b` of two decimal numbers reads as that range. */
  lemma RangeToken(a: nat, b: nat)
    ensures ParseToken(Decimal(a) + "-" + Decimal(b)) == Ok(Span(a, b))
  {
    var da, db := Decimal(a), Decimal(b);
    var token := da + "-" + db;
    assert token[0] == da[0] && token[|token| - 1] == db[|db| - 1];
    StripUnchanged(token);
    NoDashInDigits(da);
    NoDashInDigits(db);
    assert Join([da, db], "-") == token;
    JoinThenSplit([da, db], '-');
    assert token[|da|] == '-';
    ParseDecimal(a);
    ParseDecimal(b);
  }

  lemma NoDashInDigits(d: string)
    requires AllDigits(d)
    ensures '-' !in d && ',' !in d
  {
    forall i | 0 <= i < |d| ensures d[i] != '-' && d[i] != ',' {
      assert IsDigit(d[i]);
    }
  }

  /** An expression without a comma is one piece. */
  lemma OnePiece(token: string, total: nat, t: Token)
    requires ',' !in token
    requires ParseToken(token) == Ok(t)
    ensures Collect(ParseAll(Split(token, ',')), total) == Ok(TokenPages(t, total))
  {
    SplitNoSeparator(token, ',');
    assert [token][..0] == [];
    assert ParseAll([token]) == [Ok(t)];
    assert {} + TokenPages(t, total) == TokenPages(t, total);
  }

  /** A single number `n` selects page `n-1` when `1 <= n <= total` and
      nothing otherwise: an out-of-range page number is dropped silently. */
  lemma SingleNumber(n: nat, total: nat)
    ensures Selection(Decimal(n), total) == Ok(if 1 <= n <= total then [n - 1] else [])
  {
    var d := Decimal(n);
    NoDashInDigits(d);
    NumberToken(n);
    OnePiece(d, total, Single(n));
    var r: seq<nat> := if 1 <= n <= total then [n - 1] else [];
    SelectionIs(d, total, TokenPages(Single(n), total), r);
  }

  /** A range `a-b` selects exactly the indices from `max(0, a-1)` up to,
      not including, `min(total, b)`: it is clamped to the document rather
      than rejected, and a reversed range selects nothing. */
  lemma NumberRange(a: nat, b: nat, total: nat)
    ensures Selection(Decimal(a) + "-" + Decimal(b), total) ==
            Ok(Run(Max(0, a - 1), Min(total, b)))
  {
    var token := Decimal(a) + "-" + Decimal(b);
    NoDashInDigits(Decimal(a));
    NoDashInDigits(Decimal(b));
    assert ',' !in token;
    RangeToken(a, b);
    OnePiece(token, total, Span(a, b));
    var r := Run(Max(0, a - 1), Min(total, b));
    var pages := TokenPages(Span(a, b), total);
    assert pages == Interval(Max(0, a - 1), Min(total, b));
    RunSpec(Max(0, a - 1), Min(total, b));
    SelectionIs(token, total, pages, r);
  }

  /** A piece that is empty or all whitespace (as in "1,,2") raises. */
  lemma BlankPieceFails(part: string)
    requires AllSpace(part)
    ensures ParseToken(part) == Err(NotAnInteger(Strip(part)))
  {
    StripEmptyIff(part);
    ParseIntBlank(Strip(part));
  }

  /** So an expression with a blank piece raises instead of skipping it. */
  lemma BlankPieceRejected(expr: string, total: nat, part: string)
    requires part in Split(expr, ',') && AllSpace(part)
    ensures Selection(expr, total).Err?
  {
    BlankPieceFails(part);
    SelectionMembers(expr, total);
  }

  /** A range piece with a missing bound (as in "-3" or "3-") raises. */
  lemma MissingBoundFails(part: string)
    requires |Split(Strip(part), '-')| == 2
    requires AllSpace(Split(Strip(part), '-')[0]) || AllSpace(Split(Strip(part), '-')[1])
    ensures ParseToken(part).Err?
  {
    SplitSeveralIff(Strip(part), '-');
    var bounds := Split(Strip(part), '-');
    if AllSpace(bounds[0]) {
      ParseIntBlank(bounds[0]);
    } else {
      ParseIntBlank(bounds[1]);
    }
  }

  /** A piece with two or more dashes (as in "1-2-3") raises. */
  lemma ManyDashesFail(part: string)
    requires |Split(Strip(part), '-')| > 2
    ensures ParseToken(part) == Err(NotARange(Strip(part)))
  {
    SplitSeveralIff(Strip(part), '-');
  }

  /** Two pieces add the union of what each adds. */
  lemma TwoPieces(p1: string, p2: string, total: nat, t1: Token, t2: Token)
    requires ',' !in p1 && ',' !in p2
    requires ParseToken(p1) == Ok(t1) && ParseToken(p2) == Ok(t2)
    ensures Collect(ParseAll(Split(p1 + "," + p2, ',')), total) ==
            Ok(TokenPages(t1, total) + TokenPages(t2, total))
  {
    SplitTwo(p1, p2, ',');
    var parts := [p1, p2];
    assert parts[..1] == [p1] && [p1][..0] == [];
    assert ParseAll([p1]) == [Ok(t1)];
    assert ParseAll(parts) == [Ok(t1)] + [Ok(t2)] == [Ok(t1), Ok(t2)];
    CollectTwo([Ok(t1), Ok(t2)], t1, t2, total);
  }

  lemma SplitTwo(p1: string, p2: string, sep: char)
    requires sep !in p1 && sep !in p2
    ensures Split(p1 + [sep] + p2, sep) == [p1, p2]
  {
    assert Join([p1, p2], [sep]) == p1 + [sep] + p2;
    JoinThenSplit([p1, p2], sep);
  }

  lemma CollectTwo(tokens: seq<Result<Token, ParseError>>, t1: Token, t2: Token, total: nat)
    requires tokens == [Ok(t1), Ok(t2)]
    ensures Collect(tokens, total) == Ok(TokenPages(t1, total) + TokenPages(t2, total))
  {
    assert tokens[..1] == [Ok(t1)] && tokens[..1][..0] == [];
    var s1 := TokenPages(t1, total);
    assert Collect(tokens[..1], total) == Ok({} + s1);
    assert {} + s1 == s1;
  }

  /** Three pieces add the union of what each adds. */
  lemma ThreePieces(p1: string, p2: string, p3: string, total: nat, t1: Token, t2: Token, t3: Token)
    requires ',' !in p1 && ',' !in p2 && ',' !in p3
    requires ParseToken(p1) == Ok(t1) && ParseToken(p2) == Ok(t2) && ParseToken(p3) == Ok(t3)
    ensures Collect(ParseAll(Split(p1 + "," + p2 + "," + p3, ',')), total) ==
            Ok(TokenPages(t1, total) + TokenPages(t2, total) + TokenPages(t3, total))
  {
    SplitThree(p1, p2, p3, ',');
    var parts := [p1, p2, p3];
    assert parts[..2] == [p1, p2] && [p1, p2][..1] == [p1] && [p1][..0] == [];
    assert ParseAll([p1]) == [Ok(t1)];
    assert ParseAll([p1, p2]) == [Ok(t1)] + [Ok(t2)] == [Ok(t1), Ok(t2)];
    assert ParseAll(parts) == [Ok(t1), Ok(t2)] + [Ok(t3)] == [Ok(t1), Ok(t2), Ok(t3)];
    CollectThree([Ok(t1), Ok(t2), Ok(t3)], t1, t2, t3, total);
  }

  lemma SplitThree(p1: string, p2: string, p3: string, sep: char)
    requires sep !in p1 && sep !in p2 && sep !in p3
    ensures Split(p1 + [sep] + p2 + [sep] + p3, sep) == [p1, p2, p3]
  {
    assert Join([p1, p2, p3], [sep]) == p1 + [sep] + p2 + [sep] + p3 by {
      assert [p1, p2, p3][1..] == [p2, p3];
      assert [p2, p3][1..] == [p3];
      assert Join([p2, p3], [sep]) == p2 + [sep] + p3;
      assert Join([p1, p2, p3], [sep]) == p1 + [sep] + (p2 + [sep] + p3);
    }
    JoinThenSplit([p1, p2, p3], sep);
  }

  lemma CollectThree(tokens: seq<Result<Token, ParseError>>, t1: Token, t2: Token, t3: Token, total: nat)
    requires tokens == [Ok(t1), Ok(t2), Ok(t3)]
    ensures Collect(tokens, total) ==
            Ok(TokenPages(t1, total) + TokenPages(t2, total) + TokenPages(t3, total))
  {
    assert tokens[..2] == [Ok(t1), Ok(t2)];
    CollectTwo(tokens[..2], t1, t2, total);
  }

  /** "5-100" over 10 pages selects indices 4 to 9. */
  lemma ClampedRangeExample()
    ensures Selection("5-100", 10) == Ok([4, 5, 6, 7, 8, 9])
  {
    assert Decimal(5) + "-" + Decimal(100) == "5-100";
    NumberRange(5, 100, 10);
    RunFourToTen();
  }

  lemma RunFourToTen()
    ensures Run(4, 10) == [4, 5, 6, 7, 8, 9]
  {
    assert Run(9, 10) == [9];
    assert Run(8, 10) == [8, 9];
    assert Run(7, 10) == [7, 8, 9];
    assert Run(6, 10) == [6, 7, 8, 9];
    assert Run(5, 10) == [5, 6, 7, 8, 9];
  }

  /** "50" over 10 pages selects nothing and raises nothing. */
  lemma DroppedNumberExample()
    ensures Selection("50", 10) == Ok([])
  {
    assert Decimal(50) == "50";
    SingleNumber(50, 10);
  }

  /** "3,1,2" and "1-3" select the same pages, 0, 1 and 2, in any document
      of at least three pages. */
  lemma OrderExample(total: nat)
    requires total >= 3
    ensures Selection("3,1,2", total) == Selection("1-3", total) == Ok([0, 1, 2])
  {
    FirstThreeByRange(total);
    FirstThreeByList(total);
  }

  lemma FirstThreeByRange(total: nat)
    requires total >= 3
    ensures Selection("1-3", total) == Ok([0, 1, 2])
  {
    assert Decimal(1) + "-" + Decimal(3) == "1-3";
    NumberRange(1, 3, total);
    assert Run(0, 3) == [0, 1, 2];
  }

  lemma FirstThreeByList(total: nat)
    requires total >= 3
    ensures Selection("3,1,2", total) == Ok([0, 1, 2])
  {
    var d1, d2, d3 := Decimal(1), Decimal(2), Decimal(3);
    assert d3 + "," + d1 + "," + d2 == "3,1,2";
    NumberToken(3);
    NumberToken(1);
    NumberToken(2);
    NoDashInDigits(d1);
    NoDashInDigits(d2);
    NoDashInDigits(d3);
    ThreePieces(d3, d1, d2, total, Single(3), Single(1), Single(2));
    var pages := TokenPages(Single(3), total) + TokenPages(Single(1), total) + TokenPages(Single(2), total);
    assert pages == {0, 1, 2};
    RunSpec(0, 3);
    SelectionIs(d3 + "," + d1 + "," + d2, total, pages, [0, 1, 2]);
  }

  /** "1,,2" raises: the empty middle piece is not skipped. */
  lemma EmptyPieceExample(total: nat)
    ensures Selection("1,,2", total).Err?
  {
    assert "1" + [','] + "" + [','] + "2" == "1,,2";
    SplitThree("1", "", "2", ',');
    BlankPieceRejected("1,,2", total, "");
  }

  /** "1-2-3" raises: a piece must not hold two dashes. */
  lemma TwoDashesExample(total: nat)
    ensures Selection("1-2-3", total).Err?
  {
    var token := "1-2-3";
    assert token == "1" + ['-'] + "2" + ['-'] + "3";
    StripUnchanged(token);
    SplitThree("1", "2", "3", '-');
    ManyDashesFail(token);
    SplitNoSeparator(token, ',');
    SelectionMembers(token, total);
  }

  /** "3-" raises: a range needs both bounds. */
  lemma OpenRangeExample(total: nat)
    ensures Selection("3-", total).Err?
  {
    var token := "3-";
    assert token == "3" + ['-'] + "";
    StripUnchanged(token);
    SplitTwo("3", "", '-');
    MissingBoundFails(token);
    SplitNoSeparator(token, ',');
    SelectionMembers(token, total);
  }

  /** "-3" raises: the missing start is not read as zero. */
  lemma LeadingDashExample(total: nat)
    ensures Selection("-3", total).Err?
  {
    var token := "-3";
    assert token == "" + ['-'] + "3";
    StripUnchanged(token);
    SplitTwo("", "3", '-');
    MissingBoundFails(token);
    SplitNoSeparator(token, ',');
    SelectionMembers(token, total);
  }

  /** "abc" raises: it is not an integer. */
  lemma NotANumberExample(total: nat)
    ensures Selection("abc", total).Err?
  {
    var token := "abc";
    StripUnchanged(token);
    assert !IsDigit(token[0]);
    assert ParseToken(token).Err?;
    SplitNoSeparator(token, ',');
    SelectionMembers(token, total);
  }

  /** "1\x1c-3" raises: the bound "1\x1c" is not an integer, because
      `int()` does not skip the information separator U+001C that `strip()`
      would remove. */
  lemma InfoSeparatorExample(total: nat)
    ensures Selection("1\U{1C}-3", total).Err?
  {
    var token := "1\U{1C}-3";
    var first := "1\U{1C}";
    assert token == first + ['-'] + "3";
    StripUnchanged(token);
    SplitTwo(first, "3", '-');
    InfoSeparatorNotSkipped();
    assert ParseToken(token) == Err(NotAnInteger(first));
    SplitNoSeparator(token, ',');
    SelectionMembers(token, total);
  }

  /** "1-2,4" over 5 pages selects 0, 1 and 3. */
  lemma MixedExample()
    ensures Selection("1-2,4", 5) == Ok([0, 1, 3])
  {
    var d1, d2, d4 := Decimal(1), Decimal(2), Decimal(4);
    assert d1 + "-" + d2 + "," + d4 == "1-2,4";
    RangeToken(1, 2);
    NumberToken(4);
    NoDashInDigits(d1);
    NoDashInDigits(d2);
    NoDashInDigits(d4);
    TwoPieces(d1 + "-" + d2, d4, 5, Span(1, 2), Single(4));
    var pages := TokenPages(Span(1, 2), 5) + TokenPages(Single(4), 5);
    assert pages == {0, 1, 3};
    SelectionIs(d1 + "-" + d2 + "," + d4, 5, pages, [0, 1, 3]);
  }
}
