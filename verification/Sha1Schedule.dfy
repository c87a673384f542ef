/** The two ways RFC 3174 gives of processing a block in SHA-1, over any words: section 6.1 keeps 80
    words and moves the five registers every round, section 6.2 and the program keep 16 words in a
    circle and give the registers other roles instead. */
module Sha1Schedule {

  /** The operations on words.  f is the logical function of a round as section 5 writes it, codeF as
      the program does; load is applied to a word of the block when it is first used. */
  datatype Ops<!W(!new)> = Ops(mix: (W, W, W, W) -> W,
                               f: (nat, W, W, W) -> W,
                               codeF: (nat, W, W, W) -> W,
                               k: nat -> W,
                               plus: (W, W) -> W,
                               rol5: W -> W,
                               rol30: W -> W,
                               load: W -> W)
  {
    /** What the program relies on. */
    ghost predicate Lawful() {
      && (forall x, y :: plus(x, y) == plus(y, x))
      && (forall x, y, z :: plus(plus(x, y), z) == plus(x, plus(y, z)))
      && (forall t, x, y, z :: codeF(t, x, y, z) == f(t, x, y, z))
    }

    /** TEMP of section 6.1, step d. */
    function Temp(r: Registers<W>, t: nat, word: W): W {
      plus(plus(plus(plus(rol5(r.a), f(t, r.b, r.c, r.d)), r.e), word), k(t))
    }

    /** What R0 to R4 make of the register in the role of the fifth. */
    function CodeTemp(r: Registers<W>, t: nat, word: W): W {
      plus(r.e, plus(plus(plus(codeF(t, r.b, r.c, r.d), word), k(t)), rol5(r.a)))
    }
  }

  lemma TempAgrees<W(!new)>(ops: Ops<W>, r: Registers<W>, t: nat, word: W)
    requires ops.Lawful()
    ensures ops.CodeTemp(r, t, word) == ops.Temp(r, t, word)
  {
    var f, k, a := ops.f(t, r.b, r.c, r.d), ops.k(t), ops.rol5(r.a);
    Rearrange(ops.plus, r.e, f, word, k, a);
  }

  lemma Rearrange<W(!new)>(plus: (W, W) -> W, e: W, f: W, w: W, k: W, a: W)
    requires forall x, y :: plus(x, y) == plus(y, x)
    requires forall x, y, z :: plus(plus(x, y), z) == plus(x, plus(y, z))
    ensures plus(e, plus(plus(plus(f, w), k), a)) == plus(plus(plus(plus(a, f), e), w), k)
  {
    calc {
      plus(e, plus(plus(plus(f, w), k), a));
      plus(e, plus(a, plus(plus(f, w), k)));
      plus(plus(e, a), plus(plus(f, w), k));
      plus(plus(plus(e, a), plus(f, w)), k);
      plus(plus(plus(plus(e, a), f), w), k);
      plus(plus(plus(e, plus(a, f)), w), k);
      plus(plus(plus(plus(a, f), e), w), k);
    }
  }

  datatype Registers<W> = Registers(a: W, b: W, c: W, d: W, e: W)

  // ----------------------------------------------------------------- section 6.1

  /** Step b: the 80 words made from the 16 of the block. */
  ghost predicate IsSchedule<W(!new)>(ops: Ops<W>, block: seq<W>, words: seq<W>) {
    && |block| == 16
    && |words| == 80
    && (forall t :: 0 <= t < 16 ==> words[t] == ops.load(block[t]))
    && (forall t :: 16 <= t < 80 ==> Mixed(ops, words, t))
  }

  ghost predicate Mixed<W(!new)>(ops: Ops<W>, words: seq<W>, t: nat)
    requires 16 <= t < |words|
  {
    words[t] == ops.mix(words[t - 3], words[t - 8], words[t - 14], words[t - 16])
  }

  /** The schedule up to word n. */
  function Schedule<W(!new)>(ops: Ops<W>, block: seq<W>, n: nat): (words: seq<W>)
    requires |block| == 16
    ensures |words| == n
  {
    if n == 0 then []
    else
      var words := Schedule(ops, block, n - 1);
      words + [if n - 1 < 16 then ops.load(block[n - 1])
               else ops.mix(words[n - 4], words[n - 9], words[n - 15], words[n - 17])]
  }

  lemma {:induction false} ScheduleExtends<W(!new)>(ops: Ops<W>, block: seq<W>, n: nat)
    requires |block| == 16 && n <= 80
    ensures forall t :: 0 <= t < 16 && t < n ==> Schedule(ops, block, n)[t] == ops.load(block[t])
    ensures forall t :: 16 <= t < n ==> Mixed(ops, Schedule(ops, block, n), t)
  {
    if n > 0 {
      ScheduleExtends(ops, block, n - 1);
      var words := Schedule(ops, block, n - 1);
      forall t | 16 <= t < n ensures Mixed(ops, Schedule(ops, block, n), t) {
        if t < n - 1 {
          assert Mixed(ops, words, t);
        }
      }
    }
  }

  lemma ScheduleIsSchedule<W(!new)>(ops: Ops<W>, block: seq<W>)
    requires |block| == 16
    ensures IsSchedule(ops, block, Schedule(ops, block, 80))
  {
    ScheduleExtends(ops, block, 80);
  }

  /** Round t (step d). */
  function Round<W(!new)>(ops: Ops<W>, r: Registers<W>, t: nat, word: W): Registers<W> {
    Registers(ops.Temp(r, t, word), r.a, ops.rol30(r.b), r.c, r.d)
  }

  /** The registers after the first n rounds. */
  function Rounds<W(!new)>(ops: Ops<W>, words: seq<W>, start: Registers<W>, n: nat): Registers<W>
    requires n <= |words|
  {
    if n == 0 then start else Round(ops, Rounds(ops, words, start, n - 1), n - 1, words[n - 1])
  }

  /** Neither codeF nor the loading of words plays a part in the rounds. */
  lemma {:induction false} SameRounds<W(!new)>(p: Ops<W>, q: Ops<W>, words: seq<W>, start: Registers<W>, n: nat)
    requires n <= |words|
    requires p.f == q.f && p.k == q.k && p.plus == q.plus && p.rol5 == q.rol5 && p.rol30 == q.rol30
    ensures Rounds(p, words, start, n) == Rounds(q, words, start, n)
  {
    if n > 0 {
      SameRounds(p, q, words, start, n - 1);
    }
  }

  // ----------------------------------------------------------------- section 6.2

  /** Before round t the circle l holds the last 16 words of the schedule; while t < 16, the words of
      the block from t on are still as they were. */
  ghost predicate Circle<W(!new)>(block: seq<W>, words: seq<W>, l: seq<W>, t: nat)
    requires |block| == 16 && t <= |words|
  {
    && |l| == 16
    && (forall j :: 0 <= j < 16 ==> l[j] == if j < t then words[Last(j, t)] else block[j])
  }

  /** The last word before word t that has its place at j. */
  function Last(j: nat, t: nat): (k: nat)
    requires j < 16 && j < t
    ensures k < t <= k + 16
    ensures k % 16 == j
  {
    var k := t - 1 - (t - 1 - j) % 16;
    PlaceOf(j, t);
    k
  }

  lemma PlaceOf(j: nat, t: nat)
    requires j < 16 && j < t
    ensures (t - 1 - (t - 1 - j) % 16) % 16 == j
  {
    var m := (t - 1 - j) / 16;
    assert t - 1 - (t - 1 - j) % 16 == j + 16 * m;
  }

  lemma LastIs(j: nat, t: nat, k: nat)
    requires j < 16 && j < t
    requires k < t <= k + 16 && k % 16 == j
    ensures Last(j, t) == k
  {
    assert Last(j, t) / 16 == k / 16;
  }

  /** What the circle holds where a word of the last 16 has its place. */
  lemma CircleHolds<W(!new)>(block: seq<W>, words: seq<W>, l: seq<W>, t: nat, k: nat, j: nat)
    requires |block| == 16 && t <= |words| && Circle(block, words, l, t)
    requires k < t <= k + 16 && k % 16 == j
    ensures l[j] == words[k]
  {
    LastIs(j, t, k);
  }

  /** The word blk0 or blk leaves at its place. */
  function NextWord<W(!new)>(ops: Ops<W>, l: seq<W>, t: nat): W
    requires |l| == 16
  {
    if t < 16 then ops.load(l[t])
    else ops.mix(l[(t + 13) % 16], l[(t + 8) % 16], l[(t + 2) % 16], l[t % 16])
  }

  /** ... is the word of the schedule for the round. */
  lemma NextWordIsWord<W(!new)>(ops: Ops<W>, block: seq<W>, words: seq<W>, l: seq<W>, t: nat)
    requires IsSchedule(ops, block, words) && t < 80 && Circle(block, words, l, t)
    ensures NextWord(ops, l, t) == words[t]
  {
    if t >= 16 {
      Places(t);
      CircleHolds(block, words, l, t, t - 3, (t + 13) % 16);
      CircleHolds(block, words, l, t, t - 8, (t + 8) % 16);
      CircleHolds(block, words, l, t, t - 14, (t + 2) % 16);
      CircleHolds(block, words, l, t, t - 16, t % 16);
      assert Mixed(ops, words, t);
    }
  }

  lemma Places(t: nat)
    requires t >= 16
    ensures (t - 3) % 16 == (t + 13) % 16 && (t - 8) % 16 == (t + 8) % 16
    ensures (t - 14) % 16 == (t + 2) % 16 && (t - 16) % 16 == t % 16
  {
    SamePlace(t - 3);
    SamePlace(t - 8);
    SamePlace(t - 14);
    SamePlace(t - 16);
  }

  lemma SamePlace(k: nat)
    ensures (k + 16) % 16 == k % 16
  {
  }

  lemma CircleTurns<W(!new)>(block: seq<W>, words: seq<W>, l: seq<W>, t: nat)
    requires |block| == 16 && t < |words| && Circle(block, words, l, t)
    ensures Circle(block, words, l[t % 16 := words[t]], t + 1)
  {
    var next := l[t % 16 := words[t]];
    forall j | 0 <= j < 16 ensures next[j] == if j < t + 1 then words[Last(j, t + 1)] else block[j] {
      if j == t % 16 {
        LastIs(j, t + 1, t);
      } else if j < t {
        LastStays(j, t);
      }
    }
  }

  lemma LastStays(j: nat, t: nat)
    requires j < 16 && j < t && j != t % 16
    ensures Last(j, t + 1) == Last(j, t)
  {
    OtherPlace(j, t, Last(j, t));
    LastIs(j, t + 1, Last(j, t));
  }

  lemma OtherPlace(j: nat, t: nat, k: nat)
    requires k % 16 == j != t % 16
    ensures t != k + 16
  {
  }

  /** The program's round: the word of the schedule is made in its place in the circle, the register
      in the role of the fifth takes the new value and the one in the role of the second is turned. */
  method Line<W(!new)>(ops: Ops<W>, l: array<W>, i: nat, v: W, w: W, x: W, y: W, z: W,
                 ghost block: seq<W>, ghost words: seq<W>, ghost start: Registers<W>)
    returns (turned: W, renewed: W)
    requires ops.Lawful() && i < 80 && IsSchedule(ops, block, words) && Circle(block, words, l[..], i)
    requires Rounds(ops, words, start, i) == Registers(v, w, x, y, z)
    modifies l
    ensures Circle(block, words, l[..], i + 1)
    ensures Rounds(ops, words, start, i + 1) == Registers(renewed, v, turned, x, y)
  {
    NextWordIsWord(ops, block, words, l[..], i);
    CircleTurns(block, words, l[..], i);
    if i < 16 {
      l[i] := ops.load(l[i]);
    } else {
      l[i % 16] := ops.mix(l[(i + 13) % 16], l[(i + 8) % 16], l[(i + 2) % 16], l[i % 16]);
    }
    TempAgrees(ops, Registers(v, w, x, y, z), i, l[i % 16]);
    renewed := ops.CodeTemp(Registers(v, w, x, y, z), i, l[i % 16]);
    turned := ops.rol30(w);
  }

  /** Five lines: after them the roles are where they were. */
  method FiveLines<W(!new)>(ops: Ops<W>, l: array<W>, i: nat, r: Registers<W>,
                      ghost block: seq<W>, ghost words: seq<W>, ghost start: Registers<W>)
    returns (next: Registers<W>)
    requires ops.Lawful() && i + 5 <= 80 && IsSchedule(ops, block, words) && Circle(block, words, l[..], i)
    requires Rounds(ops, words, start, i) == r
    modifies l
    ensures Circle(block, words, l[..], i + 5)
    ensures Rounds(ops, words, start, i + 5) == next
  {
    var a, b, c, d, e := r.a, r.b, r.c, r.d, r.e;
    b, e := Line(ops, l, i, a, b, c, d, e, block, words, start);
    a, d := Line(ops, l, i + 1, e, a, b, c, d, block, words, start);
    e, c := Line(ops, l, i + 2, d, e, a, b, c, block, words, start);
    d, b := Line(ops, l, i + 3, c, d, e, a, b, block, words, start);
    c, a := Line(ops, l, i + 4, b, c, d, e, a, block, words, start);
    next := Registers(a, b, c, d, e);
  }

  /** The eighty lines, five at a time. */
  method AllLines<W(!new)>(ops: Ops<W>, l: array<W>, start: Registers<W>) returns (r: Registers<W>)
    requires ops.Lawful() && l.Length == 16
    modifies l
    ensures r == Rounds(ops, Schedule(ops, old(l[..]), 80), start, 80)
  {
    ghost var block := l[..];
    ghost var words := Schedule(ops, block, 80);
    ScheduleIsSchedule(ops, block);
    r := start;
    for g := 0 to 16
      invariant Circle(block, words, l[..], 5 * g)
      invariant Rounds(ops, words, start, 5 * g) == r
    {
      r := FiveLines(ops, l, 5 * g, r, block, words, start);
    }
  }
}
