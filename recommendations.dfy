/** The advisory messages derived from the finished products: one per kind of concern, in
    a fixed order and carrying its count, or a single all-clear message. */
module Recommendations {
  import opened Text
  import opened Numbers
  import opened Records
  import opened Totals
  import opened Classification

  // ---------------------------------------------------------------------------
  // The advice and its messages
  // ---------------------------------------------------------------------------

  /** One recommendation: a kind of concern with the number of products it names, or the
      all-clear. */
  datatype Advice =
    | PastDueAdvice(n: nat)  // produtos já vencidos
    | HighAdvice(n: nat)     // vencem em até 30 dias
    | MediumAdvice(n: nat)   // vencem em 31-60 dias
    | LargeAdvice(n: nat)    // grandes quantidades próximas do vencimento
    | AllClearAdvice         // situação sob controle

  /** The text before the count: the kind's symbol and a space. */
  function Opening(a: Advice): (r: string)
    ensures r != []
  {
    match a
    case PastDueAdvice(_) => "\U{26A0}\U{FE0F} "
    case HighAdvice(_) => "\U{1F534} "
    case MediumAdvice(_) => "\U{1F7E1} "
    case LargeAdvice(_) => "\U{1F4E6} "
    case AllClearAdvice => "\U{2705} "
  }

  /** The text after the count. */
  function Closing(a: Advice): string {
    match a
    case PastDueAdvice(_) => " produtos j\U{E1} vencidos - necess\U{E1}rio descarte imediato"
    case HighAdvice(_) => " produtos vencem em at\U{E9} 30 dias - priorizar venda/uso"
    case MediumAdvice(_) => " produtos vencem em 31-60 dias - aten\U{E7}\U{E3}o necess\U{E1}ria"
    case LargeAdvice(_) => " produtos com grandes quantidades pr\U{F3}ximas do vencimento - considerar promo\U{E7}\U{F5}es"
    case AllClearAdvice => "Situa\U{E7}\U{E3}o sob controle - estoque com boa validade"
  }

  /** The message of an advice, with its count written in decimal. */
  function Message(a: Advice): string {
    if a.AllClearAdvice? then Opening(a) + Closing(a) else Opening(a) + NatToString(a.n) + Closing(a)
  }

  // ---------------------------------------------------------------------------
  // The four selections
  // ---------------------------------------------------------------------------

  /** `menor_dias_restantes < 0` */
  predicate PastDue(p: Product) { p.minDays < 0 }

  /** `quantidade_total > 100 and criticidade != 'baixa'` */
  predicate LargeAndSoon(p: Product) { GreaterThan(p.total, 100.0) && p.tier != Low }

  /** The advice of `candidates` whose count is positive, in their order. */
  function Positive(candidates: seq<Advice>): (r: seq<Advice>)
    requires forall i :: 0 <= i < |candidates| ==> !candidates[i].AllClearAdvice?
    ensures |r| <= |candidates|
    ensures forall a :: a in r <==> a in candidates && a.n > 0
    ensures (forall i, j :: 0 <= i < j < |candidates| ==> Kind(candidates[i]) < Kind(candidates[j]))
            ==> forall i, j :: 0 <= i < j < |r| ==> Kind(r[i]) < Kind(r[j])
  {
    if candidates == [] then []
    else
      var rest := Positive(candidates[1..]);
      assert forall a :: a in candidates <==> a == candidates[0] || a in candidates[1..];
      if candidates[0].n > 0 then
        var r := [candidates[0]] + rest;
        assert forall i :: 1 <= i < |r| ==> r[i] in rest;
        r
      else rest
  }

  /** `_gerar_recomendacoes`: the advice for expired, high-tier, medium-tier and large
      soon-expiring products, in that order, each only when its count is positive; the
      all-clear when none of them applies. */
  function Advise(ps: seq<Product>): seq<Advice> {
    Assemble(CountOf(ps, PastDue), CountOf(ps, IsHigh), CountOf(ps, IsMedium), CountOf(ps, LargeAndSoon))
  }

  /** The advice for the four counts. */
  function Assemble(expired: nat, high: nat, medium: nat, large: nat): seq<Advice> {
    var advice := Positive([PastDueAdvice(expired), HighAdvice(high), MediumAdvice(medium), LargeAdvice(large)]);
    if advice == [] then [AllClearAdvice] else advice
  }

  /** The messages of `_gerar_recomendacoes`. */
  function Recommend(ps: seq<Product>): (r: seq<string>)
    ensures |r| == |Advise(ps)|
    ensures forall i :: 0 <= i < |r| ==> r[i] == Message(Advise(ps)[i])
  {
    var advice := Advise(ps);
    seq(|advice|, i requires 0 <= i < |advice| => Message(advice[i]))
  }

  // ---------------------------------------------------------------------------
  // What the advice says
  // ---------------------------------------------------------------------------

  /** The advice is the fixed-order sequence of the kinds whose count is positive, each
      with its count, or the all-clear alone exactly when no count is positive. */
  lemma AdviseOrder(ps: seq<Product>)
    ensures var expired := CountOf(ps, PastDue);
      var high := CountOf(ps, IsHigh);
      var medium := CountOf(ps, IsMedium);
      var large := CountOf(ps, LargeAndSoon);
      var r := Advise(ps);
      && 1 <= |r| <= 4
      && (PastDueAdvice(expired) in r <==> expired > 0)
      && (HighAdvice(high) in r <==> high > 0)
      && (MediumAdvice(medium) in r <==> medium > 0)
      && (LargeAdvice(large) in r <==> large > 0)
      && (forall i :: 0 <= i < |r| ==> Counted(r[i], expired, high, medium, large))
      && (forall i, j :: 0 <= i < j < |r| ==> Kind(r[i]) < Kind(r[j]))
      && (AllClearAdvice in r <==> expired == 0 && high == 0 && medium == 0 && large == 0)
      && (AllClearAdvice in r ==> r == [AllClearAdvice])
  {
    var expired := CountOf(ps, PastDue);
    var high := CountOf(ps, IsHigh);
    var medium := CountOf(ps, IsMedium);
    var large := CountOf(ps, LargeAndSoon);
    assert Advise(ps) == Assemble(expired, high, medium, large);
    AssembleMembers(expired, high, medium, large);
    AssembleOrder(expired, high, medium, large);
  }

  /** A message is listed exactly when its advice is, and no message is listed twice. */
  lemma RecommendMessages(ps: seq<Product>)
    ensures var r := Recommend(ps);
      && (forall a :: Message(a) in r <==> a in Advise(ps))
      && (forall i, j :: 0 <= i < j < |r| ==> r[i] != r[j])
  {
    var r := Recommend(ps);
    var advice := Advise(ps);
    forall a ensures Message(a) in r <==> a in advice {
      if Message(a) in r {
        var i :| 0 <= i < |r| && r[i] == Message(a);
        MessageInjective(a, advice[i]);
      }
      if a in advice {
        var i :| 0 <= i < |advice| && advice[i] == a;
        assert r[i] == Message(a);
      }
    }
    AdviseDistinct(ps);
    forall i, j | 0 <= i < j < |r| ensures r[i] != r[j] {
      MessageInjective(advice[i], advice[j]);
    }
  }

  /** No advice is given twice. */
  lemma AdviseDistinct(ps: seq<Product>)
    ensures forall i, j :: 0 <= i < j < |Advise(ps)| ==> Advise(ps)[i] != Advise(ps)[j]
  {
    AdviseOrder(ps);
  }

  /** One to four messages, and the all-clear message alone exactly when every count is
      zero. */
  lemma RecommendAllClear(ps: seq<Product>)
    ensures var r := Recommend(ps);
      && 1 <= |r| <= 4
      && (r == [Message(AllClearAdvice)] <==>
            CountOf(ps, PastDue) == 0 && CountOf(ps, IsHigh) == 0 && CountOf(ps, IsMedium) == 0
            && CountOf(ps, LargeAndSoon) == 0)
  {
    var r := Recommend(ps);
    AdviseOrder(ps);
    if r == [Message(AllClearAdvice)] {
      RecommendMessages(ps);
      assert Message(AllClearAdvice) in r;
    }
  }

  /** An advice carries the count of its kind. */
  predicate Counted(a: Advice, expired: nat, high: nat, medium: nat, large: nat) {
    match a
    case PastDueAdvice(n) => n == expired
    case HighAdvice(n) => n == high
    case MediumAdvice(n) => n == medium
    case LargeAdvice(n) => n == large
    case AllClearAdvice => true
  }

  lemma AssembleMembers(expired: nat, high: nat, medium: nat, large: nat)
    ensures var r := Assemble(expired, high, medium, large);
      && 1 <= |r| <= 4
      && (PastDueAdvice(expired) in r <==> expired > 0)
      && (HighAdvice(high) in r <==> high > 0)
      && (MediumAdvice(medium) in r <==> medium > 0)
      && (LargeAdvice(large) in r <==> large > 0)
      && (AllClearAdvice in r <==> expired == 0 && high == 0 && medium == 0 && large == 0)
      && (AllClearAdvice in r ==> r == [AllClearAdvice])
  {
  }

  lemma AssembleOrder(expired: nat, high: nat, medium: nat, large: nat)
    ensures var r := Assemble(expired, high, medium, large);
      && (forall i :: 0 <= i < |r| ==> Counted(r[i], expired, high, medium, large))
      && (forall i, j :: 0 <= i < j < |r| ==> Kind(r[i]) < Kind(r[j]))
  {
    var c := [PastDueAdvice(expired), HighAdvice(high), MediumAdvice(medium), LargeAdvice(large)];
    assert forall i, j :: 0 <= i < j < |c| ==> Kind(c[i]) < Kind(c[j]);
    var r := Positive(c);
    forall i | 0 <= i < |r| ensures Counted(r[i], expired, high, medium, large) {
      assert r[i] in c;
    }
  }

  /** The position of an advice kind in the fixed order. */
  function Kind(a: Advice): nat {
    match a
    case PastDueAdvice(_) => 0
    case HighAdvice(_) => 1
    case MediumAdvice(_) => 2
    case LargeAdvice(_) => 3
    case AllClearAdvice => 4
  }

  /** Without products there is nothing to report but the all-clear. */
  lemma AdviseEmpty()
    ensures Advise([]) == [AllClearAdvice]
  {
  }

  /** Different advice reads differently: the symbol tells the kind and the number tells
      the count. */
  lemma MessageInjective(a: Advice, b: Advice)
    ensures Message(a) == Message(b) ==> a == b
  {
    if Message(a) == Message(b) {
      MessageHead(a);
      MessageHead(b);
      OpeningDistinct(a, b);
      if !a.AllClearAdvice? {
        SameCount(a, b);
      }
    }
  }

  lemma SameCount(a: Advice, b: Advice)
    requires !a.AllClearAdvice? && Kind(a) == Kind(b) && Message(a) == Message(b)
    ensures a.n == b.n
  {
    OpeningDistinct(a, b);
    MiddleUnique(Opening(a), NatToString(a.n), NatToString(b.n), Closing(a));
  }

  lemma MessageHead(a: Advice)
    ensures Message(a) != [] && Message(a)[0] == Opening(a)[0]
  {
    if a.AllClearAdvice? {
      HeadOfConcat(Opening(a), [], Closing(a));
      assert Opening(a) + [] == Opening(a);
    } else {
      HeadOfConcat(Opening(a), NatToString(a.n), Closing(a));
    }
  }

  lemma HeadOfConcat(pre: string, x: string, post: string)
    requires pre != []
    ensures (pre + x + post)[0] == pre[0]
  {
  }

  lemma OpeningDistinct(a: Advice, b: Advice)
    ensures Opening(a)[0] == Opening(b)[0] ==> Kind(a) == Kind(b)
    ensures Kind(a) == Kind(b) ==> Opening(a) == Opening(b) && Closing(a) == Closing(b)
  {
  }

  lemma MiddleUnique(pre: string, x: string, y: string, post: string)
    ensures pre + x + post == pre + y + post ==> x == y
  {
    if pre + x + post == pre + y + post {
      assert |x| == |y|;
      assert x == (pre + x + post)[|pre|..|pre| + |x|];
      assert y == (pre + y + post)[|pre|..|pre| + |y|];
    }
  }

  /** On finished products, the expired count of the messages is the expired counter of the
      summary, since the tier is the one of the minimum. */
  lemma PastDueIsExpired(ps: seq<Product>)
    requires forall i :: 0 <= i < |ps| ==> ps[i].tier == TierOf(ps[i].minDays)
    ensures CountOf(ps, PastDue) == CountOf(ps, IsExpired)
  {
    forall i | 0 <= i < |ps| ensures PastDue(ps[i]) == IsExpired(ps[i]) {
      TierBounds(ps[i].minDays);
    }
    CountOfSame(ps, PastDue, IsExpired);
  }
}
