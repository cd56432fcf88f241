/**
 * The password-cracker demo of Main.java: two factories that pick a
 * cracker by a case-insensitive name, the program's choice of factory, and
 * the three crack routines that search a fixed set of candidates.
 *
 * The console reads are replaced by parameters: each routine receives the
 * password it would have read, and the program receives the two answers it
 * would have read and the message of the online dictionary cracker, whose
 * behaviour depends on a downloaded word list.
 */
module PasswordCrackers {

  datatype Option<T> = None | Some(value: T)

  // ---------------------------------------------------------------------
  // Case-insensitive comparison, on ASCII letters.

  function ToLower(c: char): char {
    if 'A' <= c <= 'Z' then (c as int - 'A' as int + 'a' as int) as char else c
  }

  /** String.equalsIgnoreCase, with case folding restricted to ASCII letters. */
  predicate EqualsIgnoreCase(a: string, b: string) {
    |a| == |b| && forall i :: 0 <= i < |a| ==> ToLower(a[i]) == ToLower(b[i])
  }

  // ---------------------------------------------------------------------
  // Factories.

  datatype Cracker =
    | BruteForceLocalCracker
    | DictionaryLocalCracker
    | BruteForceOnlineCracker
    | DictionaryOnlineCracker

  datatype CrackerFactory = LocalCrackerFactory | OnlineCrackerFactory

  /** The brute-force and the dictionary cracker each factory builds. */
  function BruteForceOf(factory: CrackerFactory): Cracker {
    if factory == LocalCrackerFactory then BruteForceLocalCracker else BruteForceOnlineCracker
  }

  function DictionaryOf(factory: CrackerFactory): Cracker {
    if factory == LocalCrackerFactory then DictionaryLocalCracker else DictionaryOnlineCracker
  }

  /** No parameter names both attacks: "BruteForce" and "Dictionary" differ in their first letter. */
  lemma AttackNamesDisjoint(parameter: string)
    ensures EqualsIgnoreCase(parameter, "BruteForce") ==> !EqualsIgnoreCase(parameter, "Dictionary")
  {
    if EqualsIgnoreCase(parameter, "BruteForce") {
      assert ToLower(parameter[0]) == ToLower("BruteForce"[0]) == 'b';
      assert ToLower("Dictionary"[0]) == 'd';
    }
  }

  /**
   * createPasswordCracker of LocalCrackerFactory and OnlineCrackerFactory:
   * the factory's brute-force cracker exactly for "BruteForce", its
   * dictionary cracker exactly for "Dictionary", both ignoring case, and
   * null (None) for every other parameter.
   */
  function CreatePasswordCracker(factory: CrackerFactory, parameter: string): (r: Option<Cracker>)
    ensures r == Some(BruteForceOf(factory)) <==> EqualsIgnoreCase(parameter, "BruteForce")
    ensures r == Some(DictionaryOf(factory)) <==> EqualsIgnoreCase(parameter, "Dictionary")
    ensures r == None <==> !EqualsIgnoreCase(parameter, "BruteForce") && !EqualsIgnoreCase(parameter, "Dictionary")
    ensures r.Some? ==> (r.value == BruteForceOf(factory) || r.value == DictionaryOf(factory))
  {
    AttackNamesDisjoint(parameter);
    match factory
    case LocalCrackerFactory =>
      if EqualsIgnoreCase(parameter, "BruteForce") then Some(BruteForceLocalCracker)
      else if EqualsIgnoreCase(parameter, "Dictionary") then Some(DictionaryLocalCracker)
      else None
    case OnlineCrackerFactory =>
      if EqualsIgnoreCase(parameter, "BruteForce") then Some(BruteForceOnlineCracker)
      else if EqualsIgnoreCase(parameter, "Dictionary") then Some(DictionaryOnlineCracker)
      else None
  }

  /**
   * The factory main picks for an operation type: Local or Online, ignoring
   * case; None for anything else.
   */
  function ChooseFactory(operationType: string): (r: Option<CrackerFactory>)
    ensures r == Some(LocalCrackerFactory) <==> EqualsIgnoreCase(operationType, "Local")
    ensures r == Some(OnlineCrackerFactory) <==> EqualsIgnoreCase(operationType, "Online")
    ensures r == None <==> !EqualsIgnoreCase(operationType, "Local") && !EqualsIgnoreCase(operationType, "Online")
  {
    if EqualsIgnoreCase(operationType, "Local") then Some(LocalCrackerFactory)
    else if EqualsIgnoreCase(operationType, "Online") then Some(OnlineCrackerFactory)
    else None
  }

  // ---------------------------------------------------------------------
  // The searches.

  const NotCracked: string := "Mot de passe non craqué"
  const BruteForceLocalCracked: string := "Mot de passe craqué par force brute (local) : "
  const DictionaryLocalCracked: string := "Mot de passe craqué par dictionnaire (local) : "
  const BruteForceOnlineCracked: string := "Mot de passe craqué par force brute (en ligne) : "

  /** The guesses of BruteForceLocalCracker.generateGuesses, in order (Main.java:67-73). */
  const Guesses: seq<string> := ["123456", "password", "qwerty", "passer", "passer123", "passer1234", "azerty"]

  /** The word list of DictionaryLocalCracker, in order (Main.java:88). */
  const Dictionary: seq<string> := ["password", "123456", "qwerty", "letmein", "admin", "passer", "passer123", "kharytoure"]

  /** The position of the first word equal to `password` ignoring case, if any. */
  function FirstMatch(words: seq<string>, password: string): (r: Option<nat>)
    ensures r.Some? <==> exists i :: 0 <= i < |words| && EqualsIgnoreCase(words[i], password)
    ensures r.Some? ==> r.value < |words| && EqualsIgnoreCase(words[r.value], password)
    ensures r.Some? ==> forall j :: 0 <= j < r.value ==> !EqualsIgnoreCase(words[j], password)
  {
    if words == [] then None
    else if EqualsIgnoreCase(words[0], password) then Some(0)
    else match FirstMatch(words[1..], password)
      case None => None
      case Some(k) => Some(k + 1)
  }

  /** A position found by a left-to-right scan is the first match. */
  lemma ScanFindsFirstMatch(words: seq<string>, password: string, i: nat)
    requires i < |words| && EqualsIgnoreCase(words[i], password)
    requires forall j :: 0 <= j < i ==> !EqualsIgnoreCase(words[j], password)
    ensures FirstMatch(words, password) == Some(i)
  {
    var r := FirstMatch(words, password);
    assert r.Some?;
    assert !(r.value < i) && !(i < r.value);
  }

  /**
   * The brute-force local result: the first guess equal to the password,
   * ignoring case, spelled as in the list; otherwise "not cracked".
   */
  function BruteForceLocalResult(password: string): string {
    match FirstMatch(Guesses, password)
    case Some(k) => BruteForceLocalCracked + Guesses[k]
    case None => NotCracked
  }

  /** The dictionary local result: the password as typed when some word equals it, ignoring case. */
  function DictionaryLocalResult(password: string): string {
    if FirstMatch(Dictionary, password).Some? then DictionaryLocalCracked + password else NotCracked
  }

  /** The online brute-force result: cracked exactly when the password is four decimal digits. */
  function BruteForceOnlineResult(password: string): string {
    if IsFourDigits(password) then BruteForceOnlineCracked + password else NotCracked
  }

  /** generateGuesses (Main.java:65-75): the list built by successive additions. */
  method GenerateGuesses() returns (guesses: seq<string>)
    ensures guesses == Guesses
  {
    guesses := [];
    guesses := guesses + ["123456"];
    guesses := guesses + ["password"];
    guesses := guesses + ["qwerty"];
    guesses := guesses + ["passer"];
    guesses := guesses + ["passer123"];
    guesses := guesses + ["passer1234"];
    guesses := guesses + ["azerty"];
  }

  /** BruteForceLocalCracker.crackPassword (Main.java:47-62) for the password read. */
  method BruteForceLocalCrack(password: string) returns (message: string)
    ensures message == BruteForceLocalResult(password)
  {
    var guesses := GenerateGuesses();
    for i := 0 to |guesses|
      invariant forall j :: 0 <= j < i ==> !EqualsIgnoreCase(guesses[j], password)
    {
      if EqualsIgnoreCase(guesses[i], password) {
        ScanFindsFirstMatch(guesses, password, i);
        return BruteForceLocalCracked + guesses[i];
      }
    }
    assert FirstMatch(guesses, password) == None;
    return NotCracked;
  }

  /** DictionaryLocalCracker.crackPassword (Main.java:79-99) for the password read. */
  method DictionaryLocalCrack(password: string) returns (message: string)
    ensures message == DictionaryLocalResult(password)
  {
    var dictionary := Dictionary;
    for i := 0 to |dictionary|
      invariant forall j :: 0 <= j < i ==> !EqualsIgnoreCase(dictionary[j], password)
    {
      if EqualsIgnoreCase(dictionary[i], password) {
        ScanFindsFirstMatch(dictionary, password, i);
        return DictionaryLocalCracked + password;
      }
    }
    assert FirstMatch(dictionary, password) == None;
    return NotCracked;
  }

  // ---------------------------------------------------------------------
  // Four-digit candidates.

  function Digit(d: int): char
    requires 0 <= d < 10
  {
    ('0' as int + d) as char
  }

  predicate IsDigit(c: char) {
    '0' <= c <= '9'
  }

  function DigitValue(c: char): int
    requires IsDigit(c)
  {
    c as int - '0' as int
  }

  /** String.format("%04d", i) for 0 <= i < 10000, with ASCII digits. */
  function Format04(i: int): string
    requires 0 <= i < 10000
  {
    [Digit(i / 1000), Digit(i / 100 % 10), Digit(i / 10 % 10), Digit(i % 10)]
  }

  predicate IsFourDigits(s: string) {
    |s| == 4 && forall k :: 0 <= k < 4 ==> IsDigit(s[k])
  }

  function FourDigitValue(s: string): int
    requires IsFourDigits(s)
  {
    1000 * DigitValue(s[0]) + 100 * DigitValue(s[1]) + 10 * DigitValue(s[2]) + DigitValue(s[3])
  }

  /** Formatting and reading back four digits are inverse to each other. */
  lemma Format04RoundTrip(i: int)
    requires 0 <= i < 10000
    ensures IsFourDigits(Format04(i)) && FourDigitValue(Format04(i)) == i
  {
    var a, b, c, d := i / 1000, i / 100 % 10, i / 10 % 10, i % 10;
    assert i / 100 == 10 * a + b;
    assert i / 10 == 10 * (i / 100) + c;
    assert i == 10 * (i / 10) + d;
  }

  /** Splitting off the last decimal digit. */
  lemma LastDigit(v: int, q: int, r: int)
    requires v == 10 * q + r && 0 <= r < 10
    ensures v / 10 == q && v % 10 == r
  {
  }

  lemma FourDigitsRoundTrip(s: string)
    ensures IsFourDigits(s) ==> 0 <= FourDigitValue(s) < 10000 && Format04(FourDigitValue(s)) == s
  {
    if !IsFourDigits(s) {
      return;
    }
    var a, b, c, d := DigitValue(s[0]), DigitValue(s[1]), DigitValue(s[2]), DigitValue(s[3]);
    var v := FourDigitValue(s);
    LastDigit(v, 100 * a + 10 * b + c, d);
    LastDigit(100 * a + 10 * b + c, 10 * a + b, c);
    LastDigit(10 * a + b, a, b);
    assert v / 100 == (v / 10) / 10 && v / 1000 == (v / 100) / 10;
    var f := Format04(v);
    assert f[0] == s[0] && f[1] == s[1] && f[2] == s[2] && f[3] == s[3];
  }

  /** Digits have no case: a candidate equals a string ignoring case only when it equals it outright. */
  lemma CandidateMatchIsExact(i: int, s: string)
    requires 0 <= i < 10000
    ensures EqualsIgnoreCase(Format04(i), s) <==> Format04(i) == s
  {
    var f := Format04(i);
    Format04RoundTrip(i);
    if EqualsIgnoreCase(f, s) {
      forall k | 0 <= k < 4 ensures f[k] == s[k] {
        assert IsDigit(f[k]) && ToLower(f[k]) == f[k];
        assert ToLower(s[k]) == f[k];
      }
    }
  }

  /**
   * BruteForceOnlineCracker.crackPassword (Main.java:140-161) for the
   * password read: tries "0000" to "9999" in order, at most 10000
   * candidates, and succeeds exactly when the password is one of them.
   */
  method BruteForceOnlineCrack(password: string) returns (message: string, ghost attempts: nat)
    ensures message == BruteForceOnlineResult(password)
    ensures attempts <= 10000
    ensures IsFourDigits(password) ==> attempts == FourDigitValue(password) + 1
  {
    attempts := 0;
    for i := 0 to 10000
      invariant attempts == i
      invariant forall j :: 0 <= j < i ==> Format04(j) != password
    {
      var attempt := Format04(i);
      attempts := attempts + 1;
      CandidateMatchIsExact(i, password);
      if EqualsIgnoreCase(attempt, password) {
        Format04RoundTrip(i);
        message := BruteForceOnlineCracked + attempt;
        return;
      }
    }
    FourDigitsRoundTrip(password);
    message := NotCracked;
  }

  // ---------------------------------------------------------------------
  // The program.

  const InvalidOperation: string := "Type d'opération non valide."
  const NoCracker: string := "Impossible de créer un craqueur de mot de passe pour l'attaque spécifiée."
  const ResultLabel: string := "Résultat : "

  /** What a cracker answers for the password; the online dictionary cracker's answer is given. */
  function CrackResult(cracker: Cracker, password: string, onlineDictionaryAnswer: string): string {
    match cracker
    case BruteForceLocalCracker => BruteForceLocalResult(password)
    case DictionaryLocalCracker => DictionaryLocalResult(password)
    case BruteForceOnlineCracker => BruteForceOnlineResult(password)
    case DictionaryOnlineCracker => onlineDictionaryAnswer
  }

  /**
   * Main.main (Main.java:168-202) after its two prompts: the lines printed.
   * An unknown operation type prints only the invalid-operation message; an
   * unknown attack type only the no-cracker message; otherwise the one
   * cracker built makes one attempt and its answer is printed.
   */
  method Run(operationType: string, attackType: string, password: string, onlineDictionaryAnswer: string)
    returns (output: seq<string>)
    ensures ChooseFactory(operationType) == None ==> output == [InvalidOperation]
    ensures ChooseFactory(operationType).Some? && CreatePasswordCracker(ChooseFactory(operationType).value, attackType) == None ==>
      output == [NoCracker]
    ensures ChooseFactory(operationType).Some? && CreatePasswordCracker(ChooseFactory(operationType).value, attackType).Some? ==>
      var cracker := CreatePasswordCracker(ChooseFactory(operationType).value, attackType).value;
      output == [ResultLabel + CrackResult(cracker, password, onlineDictionaryAnswer)]
  {
    var factory: CrackerFactory;
    if EqualsIgnoreCase(operationType, "Local") {
      factory := LocalCrackerFactory;
    } else if EqualsIgnoreCase(operationType, "Online") {
      factory := OnlineCrackerFactory;
    } else {
      return [InvalidOperation];
    }
    var cracker := CreatePasswordCracker(factory, attackType);
    if cracker.Some? {
      var cracked: string;
      match cracker.value {
        case BruteForceLocalCracker => cracked := BruteForceLocalCrack(password);
        case DictionaryLocalCracker => cracked := DictionaryLocalCrack(password);
        case BruteForceOnlineCracker =>
          ghost var attempts: nat;
          cracked, attempts := BruteForceOnlineCrack(password);
        case DictionaryOnlineCracker => cracked := onlineDictionaryAnswer;
      }
      output := [ResultLabel + cracked];
    } else {
      output := [NoCracker];
    }
  }

  // ---------------------------------------------------------------------
  // Properties of the searches.

  lemma CrackedDiffersFromNotCracked(prefix: string, word: string)
    requires prefix in {BruteForceLocalCracked, DictionaryLocalCracked, BruteForceOnlineCracked}
    ensures prefix + word != NotCracked
  {
    assert |prefix + word| > |NotCracked|;
  }

  /**
   * The brute-force local search succeeds exactly when the password equals
   * one of the seven guesses ignoring case, and then reports the first such
   * guess as the list spells it.
   */
  lemma BruteForceLocalSucceedsIff(password: string)
    ensures BruteForceLocalResult(password) != NotCracked <==>
      exists i :: 0 <= i < |Guesses| && EqualsIgnoreCase(Guesses[i], password)
    ensures BruteForceLocalResult(password) != NotCracked ==>
      exists k :: 0 <= k < |Guesses| && BruteForceLocalResult(password) == BruteForceLocalCracked + Guesses[k]
        && EqualsIgnoreCase(Guesses[k], password)
        && forall j :: 0 <= j < k ==> !EqualsIgnoreCase(Guesses[j], password)
  {
    match FirstMatch(Guesses, password)
    case Some(k) => CrackedDiffersFromNotCracked(BruteForceLocalCracked, Guesses[k]);
    case None =>
  }

  /**
   * The dictionary local search succeeds exactly when the password equals
   * one of the eight words ignoring case, and then reports the password as typed.
   */
  lemma DictionaryLocalSucceedsIff(password: string)
    ensures DictionaryLocalResult(password) != NotCracked <==>
      exists i :: 0 <= i < |Dictionary| && EqualsIgnoreCase(Dictionary[i], password)
    ensures DictionaryLocalResult(password) != NotCracked ==>
      DictionaryLocalResult(password) == DictionaryLocalCracked + password
  {
    if FirstMatch(Dictionary, password).Some? {
      CrackedDiffersFromNotCracked(DictionaryLocalCracked, password);
    }
  }

  /** The online brute-force search succeeds exactly on "0000" to "9999", and reports the password itself. */
  lemma BruteForceOnlineSucceedsIff(password: string)
    ensures BruteForceOnlineResult(password) != NotCracked <==>
      exists i :: 0 <= i < 10000 && Format04(i) == password
    ensures BruteForceOnlineResult(password) != NotCracked ==>
      BruteForceOnlineResult(password) == BruteForceOnlineCracked + password
  {
    if IsFourDigits(password) {
      CrackedDiffersFromNotCracked(BruteForceOnlineCracked, password);
      FourDigitsRoundTrip(password);
    } else {
      forall i | 0 <= i < 10000 ensures Format04(i) != password {
        Format04RoundTrip(i);
      }
    }
  }

  /** The same mixed-case input: brute force reports the list's spelling, the dictionary the input's. */
  lemma SpellingOfTheReport()
    ensures BruteForceLocalResult("PassWord") == BruteForceLocalCracked + "password"
    ensures DictionaryLocalResult("PassWord") == DictionaryLocalCracked + "PassWord"
  {
    assert EqualsIgnoreCase(Guesses[1], "PassWord");
    assert !EqualsIgnoreCase(Guesses[0], "PassWord");
    assert EqualsIgnoreCase(Dictionary[0], "PassWord");
  }
}
