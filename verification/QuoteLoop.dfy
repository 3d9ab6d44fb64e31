/** skipQuoteProgramData (Utilities/Scpi/Src/lexer.c) round by round: when its loop comes to an
    end, and where. */
module QuoteLoop {
  import opened Lexer

  datatype State = Scanning(pos: nat) | Stopped(pos: nat)

  /** One round from p: a byte above 0x7f that is not the quote leaves the cursor where it is. */
  function Round(w: string, p: nat, e: nat, quote: char): (s: State)
    requires p <= e <= |w|
    ensures p <= s.pos <= e
  {
    if p == e then Stopped(p)
    else if w[p] as int <= 0x7f && w[p] != quote then Scanning(p + 1)
    else if w[p] == quote then
      if p + 1 < e && w[p + 1] == quote then Scanning(p + 2) else Stopped(p)
    else Scanning(p)
  }

  /** n rounds, or fewer if the loop stops. */
  function Rounds(w: string, p: nat, e: nat, quote: char, n: nat): (s: State)
    requires p <= e <= |w|
    ensures p <= s.pos <= e
    decreases n
  {
    if n == 0 then Scanning(p)
    else
      match Round(w, p, e, quote)
      case Stopped(q) => Stopped(q)
      case Scanning(q) => Rounds(w, q, e, quote, n - 1)
  }

  /** It stops at the quote that is not doubled, or at the end. */
  lemma {:induction false} StopsAtQuoteEnd(w: string, p: nat, e: nat, quote: char, n: nat)
    requires p <= e <= |w| && quote as int <= 0x7f && Rounds(w, p, e, quote, n).Stopped?
    ensures Rounds(w, p, e, quote, n).pos == QuoteEnd(w, p, e, quote) && QuoteEnds(w, p, e, quote)
    decreases n
  {
    if Round(w, p, e, quote).Scanning? {
      StopsAtQuoteEnd(w, Round(w, p, e, quote).pos, e, quote, n - 1);
    }
  }

  lemma {:induction false} SevenBitStops(w: string, p: nat, e: nat, quote: char)
    requires p <= e <= |w| && quote as int <= 0x7f && QuoteEnds(w, p, e, quote)
    ensures Rounds(w, p, e, quote, e - p + 1).Stopped?
    decreases e - p
  {
    if Round(w, p, e, quote).Scanning? {
      var q := Round(w, p, e, quote).pos;
      SevenBitStops(w, q, e, quote);
      MoreRounds(w, q, e, quote, e - q + 1, e - p);
    }
  }

  lemma {:induction false} MoreRounds(w: string, p: nat, e: nat, quote: char, n: nat, m: nat)
    requires p <= e <= |w| && n <= m && Rounds(w, p, e, quote, n).Stopped?
    ensures Rounds(w, p, e, quote, m) == Rounds(w, p, e, quote, n)
    decreases n
  {
    if Round(w, p, e, quote).Scanning? {
      MoreRounds(w, Round(w, p, e, quote).pos, e, quote, n - 1, m - 1);
    }
  }

  /** The loop ends if and only if no byte above 0x7f stands before the place where it should
      stop, and then it stops there. */
  lemma {:induction false} EndsExactly(w: string, p: nat, e: nat, quote: char)
    requires p <= e <= |w| && quote as int <= 0x7f
    ensures (exists n: nat :: Rounds(w, p, e, quote, n).Stopped?) <==> QuoteEnds(w, p, e, quote)
    ensures forall n: nat :: Rounds(w, p, e, quote, n).Stopped? ==>
              Rounds(w, p, e, quote, n).pos == QuoteEnd(w, p, e, quote)
  {
    hide Rounds, QuoteEnd, QuoteEnds;
    if QuoteEnds(w, p, e, quote) {
      SevenBitStops(w, p, e, quote);
    }
    forall n: nat | Rounds(w, p, e, quote, n).Stopped?
      ensures QuoteEnds(w, p, e, quote) && Rounds(w, p, e, quote, n).pos == QuoteEnd(w, p, e, quote)
    {
      StopsAtQuoteEnd(w, p, e, quote, n);
    }
  }

  /** A micro sign inside a string, for one: the closing quote is never reached. */
  lemma {:induction false} MicroSignHangs(n: nat)
    ensures Rounds("\"\U{b5}\"", 1, 3, '"', n) == Scanning(1)
    decreases n
  {
    if n > 0 {
      MicroSignHangs(n - 1);
    }
  }
}
