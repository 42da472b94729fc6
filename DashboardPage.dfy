/** The dashboard's typewriter banner, which types a phrase one character
    per tick, pauses, clears and moves on to the next phrase, and the
    greeting chosen from the user's grade. */
module DashboardPage {
  import opened JsRuntime

  /** The three state fields of the typewriter hook. */
  datatype TypewriterState = TypewriterState(phraseIndex: nat, charIndex: nat, displayedText: string)

  /** The text shows the first `charIndex` characters of the current phrase. */
  ghost predicate Shows(phrases: seq<string>, s: TypewriterState)
  {
    && s.phraseIndex < |phrases|
    && s.charIndex <= |phrases[s.phraseIndex]|
    && s.displayedText == phrases[s.phraseIndex][..s.charIndex]
  }

  /** One timer tick: at the end of the phrase, the next phrase (cyclically)
      with nothing shown; otherwise one more character. */
  function Next(phrases: seq<string>, s: TypewriterState): TypewriterState
    requires s.phraseIndex < |phrases|
    requires s.charIndex <= |phrases[s.phraseIndex]|
  {
    var phrase := phrases[s.phraseIndex];
    if s.charIndex == |phrase| then TypewriterState((s.phraseIndex + 1) % |phrases|, 0, "")
    else TypewriterState(s.phraseIndex, s.charIndex + 1, s.displayedText + [phrase[s.charIndex]])
  }

  /** A tick keeps the text equal to the typed prefix of the current phrase,
      never runs past the phrase's end and keeps the phrase index in range. */
  lemma {:induction false} NextShows(phrases: seq<string>, s: TypewriterState)
    requires Shows(phrases, s)
    ensures Shows(phrases, Next(phrases, s))
    ensures var n := Next(phrases, s);
            if s.charIndex == |phrases[s.phraseIndex]|
            then n.phraseIndex == (s.phraseIndex + 1) % |phrases| && n.charIndex == 0 && n.displayedText == ""
            else n.phraseIndex == s.phraseIndex && n.charIndex == s.charIndex + 1
                 && n.displayedText == s.displayedText + [phrases[s.phraseIndex][s.charIndex]]
  {
    var phrase := phrases[s.phraseIndex];
    if s.charIndex < |phrase| {
      assert phrase[..s.charIndex + 1] == phrase[..s.charIndex] + [phrase[s.charIndex]];
    }
  }

  /** `k` ticks. */
  function Ticks(phrases: seq<string>, s: TypewriterState, k: nat): TypewriterState
    requires Shows(phrases, s)
    decreases k
  {
    if k == 0 then s
    else
      NextShows(phrases, s);
      Ticks(phrases, Next(phrases, s), k - 1)
  }

  lemma {:induction false} TicksShows(phrases: seq<string>, s: TypewriterState, k: nat)
    requires Shows(phrases, s)
    ensures Shows(phrases, Ticks(phrases, s, k))
    decreases k
  {
    if k > 0 {
      NextShows(phrases, s);
      TicksShows(phrases, Next(phrases, s), k - 1);
    }
  }

  /** From the start of a phrase, `k` ticks type its first `k` characters,
      and one tick after the whole phrase the next phrase starts empty. */
  lemma {:induction false} TypesPhrase(phrases: seq<string>, i: nat, k: nat)
    requires i < |phrases|
    requires k <= |phrases[i]|
    ensures Shows(phrases, TypewriterState(i, 0, ""))
    ensures Ticks(phrases, TypewriterState(i, 0, ""), k) == TypewriterState(i, k, phrases[i][..k])
    ensures Ticks(phrases, TypewriterState(i, 0, ""), |phrases[i]| + 1)
            == TypewriterState((i + 1) % |phrases|, 0, "")
  {
    var start := TypewriterState(i, 0, "");
    assert phrases[i][..0] == "";
    TypedPrefix(phrases, i, k);
    TypedPrefix(phrases, i, |phrases[i]|);
    TicksSplit(phrases, start, |phrases[i]|, 1);
    assert phrases[i][..|phrases[i]|] == phrases[i];
    var full := TypewriterState(i, |phrases[i]|, phrases[i]);
    NextShows(phrases, full);
    assert Ticks(phrases, Next(phrases, full), 0) == Next(phrases, full);
  }

  lemma {:induction false} TypedPrefix(phrases: seq<string>, i: nat, k: nat)
    requires i < |phrases| && k <= |phrases[i]|
    ensures Shows(phrases, TypewriterState(i, 0, ""))
    ensures Ticks(phrases, TypewriterState(i, 0, ""), k) == TypewriterState(i, k, phrases[i][..k])
    decreases k
  {
    assert phrases[i][..0] == "";
    if k > 0 {
      TypedPrefix(phrases, i, k - 1);
      var before := TypewriterState(i, k - 1, phrases[i][..k - 1]);
      TicksSplit(phrases, TypewriterState(i, 0, ""), k - 1, 1);
      NextShows(phrases, before);
      assert phrases[i][..k] == phrases[i][..k - 1] + [phrases[i][k - 1]];
      assert Ticks(phrases, Next(phrases, before), 0) == Next(phrases, before);
    }
  }

  lemma {:induction false} TicksSplit(phrases: seq<string>, s: TypewriterState, a: nat, b: nat)
    requires Shows(phrases, s)
    ensures ShowsAfter(phrases, s, a)
    ensures Ticks(phrases, s, a + b) == Ticks(phrases, Ticks(phrases, s, a), b)
    decreases a
  {
    TicksShows(phrases, s, a);
    if a > 0 {
      NextShows(phrases, s);
      TicksSplit(phrases, Next(phrases, s), a - 1, b);
    }
  }

  ghost predicate ShowsAfter(phrases: seq<string>, s: TypewriterState, a: nat)
    requires Shows(phrases, s)
  {
    Shows(phrases, Ticks(phrases, s, a))
  }

  /** The ticks needed to type and clear the first `i` phrases. */
  function CycleTicks(phrases: seq<string>, i: nat): nat
    requires i <= |phrases|
  {
    if i == 0 then 0 else CycleTicks(phrases, i - 1) + |phrases[i - 1]| + 1
  }

  /** After typing and clearing the first `i` phrases the banner is at the
      start of phrase `i`, or back at the first phrase once all are done. */
  lemma {:induction false} CycleReturns(phrases: seq<string>, i: nat)
    requires 0 < |phrases| && i <= |phrases|
    ensures Shows(phrases, TypewriterState(0, 0, ""))
    ensures Ticks(phrases, TypewriterState(0, 0, ""), CycleTicks(phrases, i))
            == TypewriterState(if i < |phrases| then i else 0, 0, "")
    decreases i
  {
    var start := TypewriterState(0, 0, "");
    assert phrases[0][..0] == "";
    if i > 0 {
      var k := CycleTicks(phrases, i - 1);
      CycleReturns(phrases, i - 1);
      var mid := TypewriterState(i - 1, 0, "");
      assert Ticks(phrases, start, k) == mid;
      TicksSplit(phrases, start, k, |phrases[i - 1]| + 1);
      PhraseDone(phrases, i - 1);
    }
  }

  /** Typing and clearing phrase `i` leads to the start of the next one. */
  lemma {:induction false} PhraseDone(phrases: seq<string>, i: nat)
    requires i < |phrases|
    ensures Shows(phrases, TypewriterState(i, 0, ""))
    ensures Ticks(phrases, TypewriterState(i, 0, ""), |phrases[i]| + 1)
            == TypewriterState(if i + 1 < |phrases| then i + 1 else 0, 0, "")
  {
    TypesPhrase(phrases, i, 0);
    assert (i + 1) % |phrases| == if i + 1 < |phrases| then i + 1 else 0;
  }

  /** A whole cycle through the phrases brings the banner back to its
      initial state. */
  lemma {:induction false} WholeCycle(phrases: seq<string>)
    requires 0 < |phrases|
    ensures Shows(phrases, TypewriterState(0, 0, ""))
    ensures Ticks(phrases, TypewriterState(0, 0, ""), CycleTicks(phrases, |phrases|))
            == TypewriterState(0, 0, "")
  {
    CycleReturns(phrases, |phrases|);
  }

  /** The hook's state; `Step` is one timer callback. */
  class Typewriter {
    const phrases: seq<string>
    var phraseIndex: nat
    var charIndex: nat
    var displayedText: string

    ghost predicate Valid()
      reads this
    {
      Shows(phrases, TypewriterState(phraseIndex, charIndex, displayedText))
    }

    function State(): TypewriterState
      reads this
    {
      TypewriterState(phraseIndex, charIndex, displayedText)
    }

    /** `phrases[0]` is read on the first render, so the list is not empty. */
    constructor(phrases: seq<string>)
      requires |phrases| > 0
      ensures Valid()
      ensures this.phrases == phrases && State() == TypewriterState(0, 0, "")
    {
      this.phrases := phrases;
      phraseIndex := 0;
      charIndex := 0;
      displayedText := "";
      assert phrases[0][..0] == "";
    }

    method Step()
      requires Valid()
      modifies this
      ensures Valid()
      ensures State() == Next(phrases, old(State()))
    {
      if charIndex == |phrases[phraseIndex]| {
        phraseIndex := (phraseIndex + 1) % |phrases|;
        charIndex := 0;
        displayedText := "";
      } else {
        displayedText := displayedText + [phrases[phraseIndex][charIndex]];
        charIndex := charIndex + 1;
      }
      NextShows(phrases, old(State()));
    }
  }

  // ---------------------------------------------------------------------
  // Greeting

  /** A fixed greeting, or the personalised "Bonjour, <user> !". */
  datatype Greeting = Fixed(text: string) | Bonjour(user: string)

  /** The grades addressed as "Chef". */
  const ChefGrades: seq<string> := ["GP2C", "GHC", "G1C", "G2C", "GST"]

  /** The grade switch of the dashboard. */
  function GreetingFor(grade: string, user: string): Greeting
  {
    if grade in ChefGrades then Fixed("Mes respects Chef")
    else if grade in ["GCA", "GDI", "GBG"] then Fixed("Mes devoirs mon Général")
    else if grade in ["COL", "LCL"] then Fixed("Mes respects mon Colonel")
    else if grade == "CEN" then Fixed("Mes respects mon Commandant")
    else if grade == "CNE" then Fixed("Mes respects mon Capitaine")
    else if grade in ["LTN", "GPCE"] then Fixed("Mes respects mon Lieutenant")
    else if grade == "GPHC" then Fixed("Mes respects mon Adjudant-chef")
    else if grade == "GP1C" then Fixed("Mes respects mon Adjudant")
    else Bonjour(user)
  }

  /** The greetings as a table of grade groups. */
  const GreetingTable: seq<(seq<string>, string)> := [
    (ChefGrades, "Mes respects Chef"),
    (["GCA", "GDI", "GBG"], "Mes devoirs mon Général"),
    (["COL", "LCL"], "Mes respects mon Colonel"),
    (["CEN"], "Mes respects mon Commandant"),
    (["CNE"], "Mes respects mon Capitaine"),
    (["LTN", "GPCE"], "Mes respects mon Lieutenant"),
    (["GPHC"], "Mes respects mon Adjudant-chef"),
    (["GP1C"], "Mes respects mon Adjudant")
  ]

  /** The text of the first group that holds the grade. */
  function Lookup(table: seq<(seq<string>, string)>, grade: string): (r: Option<string>)
    ensures r.None? <==> forall i :: 0 <= i < |table| ==> grade !in table[i].0
  {
    if table == [] then None
    else if grade in table[0].0 then Some(table[0].1)
    else
      var rest := Lookup(table[1..], grade);
      assert forall i :: 1 <= i < |table| ==> table[i] == table[1..][i - 1];
      rest
  }

  /** A grade in group `i` and in no earlier group finds group `i`. */
  lemma {:induction false} LookupFirst(table: seq<(seq<string>, string)>, grade: string, i: nat)
    requires i < |table| && grade in table[i].0
    requires forall j :: 0 <= j < i ==> grade !in table[j].0
    ensures Lookup(table, grade) == Some(table[i].1)
  {
    if i > 0 {
      assert grade !in table[0].0;
      LookupFirst(table[1..], grade, i - 1);
    }
  }

  /** The switch agrees with the table: a listed grade gets its group's
      greeting whoever the user is, any other grade (the empty one
      included) the personalised greeting. */
  lemma {:induction false} GreetingMatchesTable(grade: string, user: string)
    ensures GreetingFor(grade, user) == TableGreeting(grade, user)
  {
    var t := GreetingTable;
    if grade in t[0].0 || grade in t[1].0 || grade in t[2].0 || grade in t[3].0 {
      GreetingFirstGroups(grade, user);
    } else {
      GreetingLastGroups(grade, user);
    }
  }

  /** The greeting the table gives. */
  function TableGreeting(grade: string, user: string): Greeting
  {
    match Lookup(GreetingTable, grade)
    case Some(text) => Fixed(text)
    case None => Bonjour(user)
  }

  lemma {:induction false} GreetingFirstGroups(grade: string, user: string)
    requires grade in GreetingTable[0].0 || grade in GreetingTable[1].0
             || grade in GreetingTable[2].0 || grade in GreetingTable[3].0
    ensures GreetingFor(grade, user) == TableGreeting(grade, user)
  {
    var t := GreetingTable;
    if grade in t[0].0 {
      LookupFirst(t, grade, 0);
    } else if grade in t[1].0 {
      LookupFirst(t, grade, 1);
    } else if grade in t[2].0 {
      LookupFirst(t, grade, 2);
    } else {
      LookupFirst(t, grade, 3);
    }
  }

  lemma {:induction false} GreetingLastGroups(grade: string, user: string)
    requires !(grade in GreetingTable[0].0 || grade in GreetingTable[1].0
               || grade in GreetingTable[2].0 || grade in GreetingTable[3].0)
    ensures GreetingFor(grade, user) == TableGreeting(grade, user)
  {
    var t := GreetingTable;
    if grade in t[4].0 {
      LookupFirst(t, grade, 4);
    } else if grade in t[5].0 {
      LookupFirst(t, grade, 5);
    } else if grade in t[6].0 {
      LookupFirst(t, grade, 6);
    } else if grade in t[7].0 {
      LookupFirst(t, grade, 7);
    }
  }

  /** No grade is in two groups, so the order of the switch's cases does
      not matter. */
  lemma {:induction false} GreetingGroupsDisjoint(i: nat, j: nat)
    requires i < j < |GreetingTable|
    ensures forall g :: g in GreetingTable[i].0 ==> g !in GreetingTable[j].0
  {
  }
}
