/**
 * `translateToUrdu`: a fixed English-to-Urdu phrase table applied by keyword.
 * The table is scanned in insertion order; the first English phrase that occurs in the
 * instruction (ignoring case) has every case-insensitive occurrence replaced by its Urdu
 * phrase and the result is returned at once; without such a phrase the instruction is
 * returned unchanged.
 */
module Translation {
  import opened Wrappers
  import opened CaseInsensitive

  datatype Phrase = Phrase(english: string, urdu: string)

  /** The `translations` object, in insertion order (the order `Object.entries` yields). */
  const UrduPhrases: seq<Phrase> := [
    Phrase("Head north", "شمال کی طرف جائیں"),
    Phrase("Head south", "جنوب کی طرف جائیں"),
    Phrase("Head east", "مشرق کی طرف جائیں"),
    Phrase("Head west", "مغرب کی طرف جائیں"),
    Phrase("Turn left", "بائیں مڑیں"),
    Phrase("Turn right", "دائیں مڑیں"),
    Phrase("Continue straight", "سیدھے جائیں"),
    Phrase("Arrive at destination", "منزل پر پہنچ گئے"),
    Phrase("Turn around", "واپس مڑیں")
  ]

  /** Every English phrase is non-empty, so each one is a usable search pattern. */
  predicate WellFormed(table: seq<Phrase>)
  {
    forall j :: 0 <= j < |table| ==> table[j].english != ""
  }

  /**
   * Every Urdu phrase starts with a character that no case variant of the first letter
   * of its English phrase equals; so a substitution always changes the text.
   */
  predicate Distinguishable(table: seq<Phrase>)
  {
    forall j :: 0 <= j < |table| ==>
      table[j].english != "" && table[j].urdu != "" &&
      Lower(table[j].urdu[0]) != Lower(table[j].english[0])
  }

  lemma UrduPhrasesWellFormed()
    ensures WellFormed(UrduPhrases) && Distinguishable(UrduPhrases)
  {
  }

  /** The loop of `translateToUrdu` over a phrase table, as a recursion on the table. */
  function TranslateWith(table: seq<Phrase>, instruction: string): string
    requires WellFormed(table)
    decreases |table|
  {
    if table == [] then instruction
    else if ContainsCI(instruction, table[0].english) then
      ReplaceAllCI(instruction, table[0].english, table[0].urdu)
    else TranslateWith(table[1..], instruction)
  }

  function TranslateToUrdu(instruction: string): string
  {
    UrduPhrasesWellFormed();
    TranslateWith(UrduPhrases, instruction)
  }

  /** Entry j is the first entry of the table whose English phrase occurs in the instruction. */
  ghost predicate FirstKeyAt(table: seq<Phrase>, instruction: string, j: int)
  {
    0 <= j < |table| &&
    ContainsCI(instruction, table[j].english) &&
    forall i :: 0 <= i < j ==> !ContainsCI(instruction, table[i].english)
  }

  /** Outside the dictionary the instruction comes back unchanged. */
  lemma {:induction false} TranslateOutsideTable(table: seq<Phrase>, instruction: string)
    requires WellFormed(table)
    requires forall j :: 0 <= j < |table| ==> !ContainsCI(instruction, table[j].english)
    ensures TranslateWith(table, instruction) == instruction
    decreases |table|
  {
    if table != [] {
      TranslateOutsideTable(table[1..], instruction);
    }
  }

  /** Only the first matching entry in table order is substituted. */
  lemma {:induction false} TranslateFirstKey(table: seq<Phrase>, instruction: string, j: int)
    requires WellFormed(table) && FirstKeyAt(table, instruction, j)
    ensures TranslateWith(table, instruction) == ReplaceAllCI(instruction, table[j].english, table[j].urdu)
    decreases |table|
  {
    if j > 0 {
      assert !ContainsCI(instruction, table[0].english);
      assert FirstKeyAt(table[1..], instruction, j - 1);
      TranslateFirstKey(table[1..], instruction, j - 1);
    }
  }

  /** When some entry occurs in the instruction, one of them is the first. */
  lemma {:induction false} FirstKeyExists(table: seq<Phrase>, instruction: string, k: int)
    requires 0 <= k < |table| && ContainsCI(instruction, table[k].english)
    ensures exists j :: 0 <= j <= k && FirstKeyAt(table, instruction, j)
    decreases k
  {
    if !FirstKeyAt(table, instruction, k) {
      var i :| 0 <= i < k && ContainsCI(instruction, table[i].english);
      FirstKeyExists(table, instruction, i);
    }
  }

  /** `TranslateFirstKey` for the table of `translateToUrdu`. */
  lemma TranslateToUrduFirstKey(instruction: string, j: int)
    requires FirstKeyAt(UrduPhrases, instruction, j)
    ensures TranslateToUrdu(instruction) ==
      ReplaceAllCI(instruction, UrduPhrases[j].english, UrduPhrases[j].urdu)
  {
    UrduPhrasesWellFormed();
    TranslateFirstKey(UrduPhrases, instruction, j);
  }

  /** `translateToUrdu` changes the instruction exactly when some English phrase occurs in it. */
  lemma TranslateToUrduChangesIff(instruction: string)
    ensures TranslateToUrdu(instruction) != instruction <==>
      exists j :: 0 <= j < |UrduPhrases| && ContainsCI(instruction, UrduPhrases[j].english)
  {
    UrduPhrasesWellFormed();
    if k :| 0 <= k < |UrduPhrases| && ContainsCI(instruction, UrduPhrases[k].english) {
      FirstKeyExists(UrduPhrases, instruction, k);
      var j :| 0 <= j <= k && FirstKeyAt(UrduPhrases, instruction, j);
      TranslateToUrduFirstKey(instruction, j);
      var p := UrduPhrases[j];
      ContainsIffFirstMatch(instruction, p.english);
      var i := FirstMatch(instruction, p.english).value;
      ReplaceAtFirstMatch(instruction, p.english, p.urdu, i);
      FirstMatchSpec(instruction, p.english);
      var r := TranslateToUrdu(instruction);
      assert r[i] == p.urdu[0];
      assert MatchAt(instruction, p.english, i);
      assert instruction[i..i + |p.english|][0] == instruction[i];
      assert Lower(instruction[i]) == Lower(p.english[0]);
      assert r[i] != instruction[i];
    } else {
      TranslateOutsideTable(UrduPhrases, instruction);
    }
  }

  /**
   * Table order, not text order, decides: "Turn left" comes before "Turn right" in the
   * table, so only "turn left" is translated and "Turn right" stays in English.
   */
  lemma TableOrderWins(prefix: string, s: string)
    requires prefix == "Turn right, then " && s == prefix + "turn left"
    ensures TranslateToUrdu(s) == prefix + "بائیں مڑیں"
  {
    assert s == "Turn right, then turn left";
    TurnLeftFirst(s);
    assert s[..17] == prefix;
  }

  lemma TurnLeftFirst(s: string)
    requires s == "Turn right, then turn left"
    ensures TranslateToUrdu(s) == s[..17] + UrduPhrases[4].urdu
  {
    var left := UrduPhrases[4];
    TurnLeftIsFirstKey(s);
    TranslateToUrduFirstKey(s, 4);
    ReplaceAtFirstMatch(s, left.english, left.urdu, 17);
    var tail := s[17 + |left.english|..];
    assert tail == "";
    assert ReplaceAllCI(tail, left.english, left.urdu) == "";
  }

  lemma TurnLeftIsFirstKey(s: string)
    requires s == "Turn right, then turn left"
    ensures FirstKeyAt(UrduPhrases, s, 4) && FirstMatch(s, UrduPhrases[4].english) == Some(17)
  {
    assert UrduPhrases[4].english == "Turn left";
    TurnLeftAt17(s);
    ContainsIffFirstMatch(s, "Turn left");
    NoHeadPhrase(s);
  }

  /** No "Head ..." phrase occurs: their fourth letter is d, which s does not have. */
  lemma NoHeadPhrase(s: string)
    requires s == "Turn right, then turn left"
    ensures forall i :: 0 <= i < 4 ==> !ContainsCI(s, UrduPhrases[i].english)
  {
    NoLetterD(s);
    NotContainedWithoutLetter(s, "Head north", 3);
    NotContainedWithoutLetter(s, "Head south", 3);
    NotContainedWithoutLetter(s, "Head east", 3);
    NotContainedWithoutLetter(s, "Head west", 3);
  }

  lemma NoLetterD(s: string)
    requires s == "Turn right, then turn left"
    ensures forall m :: 0 <= m < |s| ==> Lower(s[m]) != 'd'
  {
  }

  lemma TurnLeftAt17(s: string)
    requires s == "Turn right, then turn left"
    ensures FirstMatch(s, "Turn left") == Some(17)
  {
    var key := "Turn left";
    MatchFromChars(s, key, 17);
    NoTurnLeftBefore17(s, key);
    ContainsIffFirstMatch(s, key);
    FirstMatchSpec(s, key);
  }

  /** "turn left" cannot start before position 17: the only earlier t's are at 0, 9 and 12. */
  lemma NoTurnLeftBefore17(s: string, key: string)
    requires s == "Turn right, then turn left" && key == "Turn left"
    ensures forall j :: 0 <= j < 17 ==> !MatchAt(s, key, j)
  {
    TLetters(s);
    forall j | 0 <= j < 17 ensures !MatchAt(s, key, j) {
      if j == 0 {
        NoMatchAt(s, key, j, 5);
      } else if j == 9 || j == 12 {
        NoMatchAt(s, key, j, 1);
      } else {
        NoMatchAt(s, key, j, 0);
      }
    }
  }

  lemma TLetters(s: string)
    requires s == "Turn right, then turn left"
    ensures forall m :: 0 <= m < 17 && m != 0 && m != 9 && m != 12 ==> Lower(s[m]) != 't'
  {
  }
}
