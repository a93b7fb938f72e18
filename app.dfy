/** The application shell: the watchlist kept in the session state, the
    callback that adds a typed ticker to it, and the default start of the date
    range, which depends on the bar interval. */
module App {

  // ---------------------------------------------------------------------------
  // Normalising a typed ticker

  /** The whitespace `str.strip()` removes, restricted to ASCII: space, tab,
      line feed, carriage return, vertical tab, form feed and the four
      information separators U+001C to U+001F. */
  predicate IsSpace(c: char)
  {
    c == ' ' || c == '\t' || c == '\n' || c == '\r' || c == '\U{000B}' || c == '\U{000C}'
    || c == '\U{001C}' || c == '\U{001D}' || c == '\U{001E}' || c == '\U{001F}'
  }

  /** The first position at or after `i` that is not whitespace, or `|s|`. */
  function FirstNonSpace(s: string, i: nat): (a: nat)
    requires i <= |s|
    ensures i <= a <= |s|
    ensures forall k :: i <= k < a ==> IsSpace(s[k])
    ensures a < |s| ==> !IsSpace(s[a])
    decreases |s| - i
  {
    if i == |s| || !IsSpace(s[i]) then i else FirstNonSpace(s, i + 1)
  }

  /** The end of the text in `s[lo..j]` once trailing whitespace is cut off. */
  function EndNonSpace(s: string, lo: nat, j: nat): (b: nat)
    requires lo <= j <= |s|
    ensures lo <= b <= j
    ensures forall k :: b <= k < j ==> IsSpace(s[k])
    ensures b > lo ==> !IsSpace(s[b - 1])
    decreases j
  {
    if j == lo || !IsSpace(s[j - 1]) then j else EndNonSpace(s, lo, j - 1)
  }

  /** `str.strip()`: the input without its leading and trailing whitespace. */
  function Strip(s: string): (r: string)
    ensures |r| <= |s|
    ensures |r| > 0 ==> !IsSpace(r[0]) && !IsSpace(r[|r| - 1])
    ensures exists i :: StripsTo(s, r, i)
  {
    var a := FirstNonSpace(s, 0);
    var b := EndNonSpace(s, a, |s|);
    assert StripsTo(s, s[a..b], a);
    s[a..b]
  }

  /** `r` is `s` from position `i` on, with only whitespace cut off on both sides. */
  ghost predicate StripsTo(s: string, r: string, i: nat)
  {
    && i + |r| <= |s| && r == s[i..i + |r|]
    && (forall k :: 0 <= k < i ==> IsSpace(s[k]))
    && (forall k :: i + |r| <= k < |s| ==> IsSpace(s[k]))
  }

  /** `str.upper()`, restricted to ASCII letters. */
  function Upper(s: string): (r: string)
    ensures |r| == |s|
    ensures forall k :: 0 <= k < |s| ==> r[k] == UpperChar(s[k])
  {
    seq(|s|, k requires 0 <= k < |s| => UpperChar(s[k]))
  }

  function UpperChar(c: char): (u: char)
    ensures !IsSpace(c) ==> !IsSpace(u)
    ensures !('a' <= u <= 'z')
  {
    if 'a' <= c <= 'z' then (c as int - 'a' as int + 'A' as int) as char else c
  }

  /** The candidate ticker: the typed text stripped and upper-cased. */
  function NormalizeTicker(s: string): (r: string)
    ensures |r| <= |s|
    ensures forall k :: 0 <= k < |r| ==> !('a' <= r[k] <= 'z')
    ensures |r| > 0 ==> !IsSpace(r[0]) && !IsSpace(r[|r| - 1])
    ensures r == "" <==> forall k :: 0 <= k < |s| ==> IsSpace(s[k])
  {
    var t := Strip(s);
    var r := Upper(t);
    BlankIff(s);
    r
  }

  lemma BlankIff(s: string)
    ensures Strip(s) == "" <==> forall k :: 0 <= k < |s| ==> IsSpace(s[k])
  {
    var r := Strip(s);
    var i: nat :| StripsTo(s, r, i);
    if |r| > 0 {
      assert s[i] == r[0];
    }
  }

  /** A leading file separator (U+001C) is whitespace to `str.strip()`: the
      typed text "\U{001C}aapl" becomes the ticker "AAPL". */
  lemma SeparatorStripped()
    ensures NormalizeTicker("\U{001C}aapl") == "AAPL"
  {
    var s := "\U{001C}aapl";
    assert FirstNonSpace(s, 1) == 1;
    assert FirstNonSpace(s, 0) == 1;
    assert EndNonSpace(s, 1, 5) == 5;
    assert Strip(s) == "aapl";
    assert Upper("aapl") == "AAPL";
  }

  /** Normalising twice is normalising once. */
  lemma {:induction false} NormalizeIdempotent(s: string)
    ensures NormalizeTicker(NormalizeTicker(s)) == NormalizeTicker(s)
  {
    var r := NormalizeTicker(s);
    StripClean(r);
    UpperIdempotent(r);
  }

  /** A string without surrounding whitespace is its own strip. */
  lemma StripClean(s: string)
    requires |s| > 0 ==> !IsSpace(s[0]) && !IsSpace(s[|s| - 1])
    ensures Strip(s) == s
  {
  }

  lemma UpperIdempotent(s: string)
    requires forall k :: 0 <= k < |s| ==> !('a' <= s[k] <= 'z')
    ensures Upper(s) == s
  {
  }

  // ---------------------------------------------------------------------------
  // The watchlist

  /** No ticker appears twice. */
  predicate NoDuplicates(tickers: seq<string>)
  {
    forall i, j :: 0 <= i < j < |tickers| ==> tickers[i] != tickers[j]
  }

  /** The watchlist a new session starts with. */
  const DefaultTickers: seq<string> := ["BTC-USD", "ETH-USD", "AAPL"]

  /** The effect of `add_ticker_callback` on the watchlist and the input box. */
  function AddTicker(tickers: seq<string>, input: string): (r: (seq<string>, string))
    ensures var v := NormalizeTicker(input);
            && (v == "" ==> r == (tickers, input))
            && (v != "" ==> r.1 == "")
            && (v != "" && v !in tickers ==> r.0 == tickers + [v])
            && (v != "" && v in tickers ==> r.0 == tickers)
  {
    var v := NormalizeTicker(input);
    if v == "" then (tickers, input)
    else if v in tickers then (tickers, "")
    else (tickers + [v], "")
  }

  /** Adding keeps the list free of duplicates, keeps every existing entry at
      its position, and afterwards the normalised ticker is on the list. */
  lemma AddTickerInvariant(tickers: seq<string>, input: string)
    requires NoDuplicates(tickers)
    ensures var r := AddTicker(tickers, input);
            && NoDuplicates(r.0)
            && |tickers| <= |r.0| <= |tickers| + 1
            && r.0[..|tickers|] == tickers
            && (NormalizeTicker(input) != "" ==> NormalizeTicker(input) in r.0)
            && (forall x :: x in r.0 <==> x in tickers || (x == NormalizeTicker(input) && x != ""))
  {
    var r := AddTicker(tickers, input);
    assert r.0[..|tickers|] == tickers;
  }

  /** Adding the same text twice changes the list only once. */
  lemma AddTickerTwice(tickers: seq<string>, input: string)
    ensures var r := AddTicker(tickers, input);
            AddTicker(r.0, input).0 == r.0
  {
  }

  /** The session state the callback reads and writes. */
  class Session {
    var tickers: seq<string>
    var newTickerInput: string

    ghost predicate Valid()
      reads this
    {
      NoDuplicates(tickers)
    }

    /** A new session: the default watchlist and an empty input box. */
    constructor ()
      ensures tickers == DefaultTickers && newTickerInput == ""
      ensures Valid()
    {
      tickers := DefaultTickers;
      newTickerInput := "";
    }

    /** `add_ticker_callback`: appends the normalised input unless it is blank
        or already listed, and clears the input box unless it is blank. */
    method AddTickerCallback()
      requires Valid()
      modifies this
      ensures (tickers, newTickerInput) == AddTicker(old(tickers), old(newTickerInput))
      ensures Valid()
    {
      var newVal := Upper(Strip(newTickerInput));
      if newVal != "" {
        if newVal !in tickers {
          tickers := tickers + [newVal];
        }
        newTickerInput := "";
      }
      AddTickerInvariant(old(tickers), old(newTickerInput));
    }
  }

  // ---------------------------------------------------------------------------
  // The default date range

  /** The bar intervals offered, by label, and the one selected by default. */
  const IntervalOptions: seq<(string, string)> :=
    [("1 Minute", "1m"), ("5 Minutes", "5m"), ("30 Minutes", "30m"),
     ("1 Hour", "1h"), ("1 Day", "1d"), ("1 Week", "1wk")]
  const DefaultIntervalIndex: nat := 4

  /** The intraday intervals, for which only a short history is requested. */
  predicate Intraday(interval: string)
  {
    interval in ["1m", "5m", "30m", "1h"]
  }

  /** The default start of the date range, as a day number: 59 days back for
      an intraday interval, 365 days back otherwise. */
  function DefaultStart(today: int, interval: string): (start: int)
    ensures start < today
    ensures today - start == 59 <==> Intraday(interval)
    ensures today - start == 365 <==> !Intraday(interval)
  {
    if Intraday(interval) then today - 59 else today - 365
  }

  /** Over the offered intervals the short range applies to exactly the first
      four, and the default interval gets a year. */
  lemma DefaultRangeOfOptions(today: int)
    ensures forall k :: 0 <= k < |IntervalOptions| ==>
              (Intraday(IntervalOptions[k].1) <==> k < 4)
    ensures DefaultStart(today, IntervalOptions[DefaultIntervalIndex].1) == today - 365
  {
    assert IntervalOptions[4].1 == "1d";
    assert IntervalOptions[5].1 == "1wk";
  }
}
