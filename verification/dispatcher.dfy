/**
 * The command dispatcher: trims a line, splits it into a command word and an
 * argument tail with the pattern (\S+)(.*), looks the lower-cased word up in a
 * fixed registry and hands the tail to that command's parser.
 *
 * The per-command argument parsers are not part of this model; they are a
 * parameter (`ArgParser`) whose result the dispatcher returns unchanged.
 */
module Dispatcher {
  import opened Results
  import opened Messages
  import opened JavaText

  /** One kind per case of the dispatcher's switch. */
  datatype CommandKind =
    | AddClient | AddPolicy | Edit | UpdateClient | DeleteClient | DeletePolicy
    | Clear | FindClient | List | Exit | Help | Priority
    | FindClientOr | FindClientAnd | Sort | SortPriority

  /** The command word each kind is registered under. */
  function Word(k: CommandKind): (r: string)
    ensures |r| > 0
    ensures forall i :: 0 <= i < |r| ==> 'a' <= r[i] <= 'z'
  {
    match k
    case AddClient => "add"
    case AddPolicy => "addpolicy"
    case Edit => "edit"
    case UpdateClient => "update"
    case DeleteClient => "delete"
    case DeletePolicy => "deletepolicy"
    case Clear => "clear"
    case FindClient => "find"
    case List => "list"
    case Exit => "exit"
    case Help => "help"
    case Priority => "priority"
    case FindClientOr => "findor"
    case FindClientAnd => "findand"
    case Sort => "sort"
    case SortPriority => "sortpriority"
  }

  /** The kinds in the order of the switch's cases. */
  const Registry: seq<CommandKind> := [
    AddClient, AddPolicy, Edit, UpdateClient, DeleteClient, DeletePolicy,
    Clear, FindClient, List, Exit, Help, Priority,
    FindClientOr, FindClientAnd, Sort, SortPriority
  ]

  /** Kinds whose command is built without looking at the argument tail. */
  predicate TakesNoArguments(k: CommandKind) {
    k == Clear || k == List || k == Exit || k == Help || k == Sort || k == SortPriority
  }

  /** A parsed command: a fixed one, or whatever a per-command parser built (payload P). */
  datatype Command<P> = NoArgCommand(kind: CommandKind) | ParsedCommand(kind: CommandKind, payload: P)

  datatype ParseError =
    | InvalidCommandFormat(usage: Usage)  // the invalid-format message around a usage text
    | UnknownCommand
    | ArgumentError(message: string)      // raised by a per-command parser

  /** The per-command parsers, indexed by kind. */
  type ArgParser<P> = (CommandKind, string) -> Result<Command<P>, ParseError>

  // ---- the registry ----------------------------------------------------------

  lemma RegistryComplete(k: CommandKind)
    ensures k in Registry
  {
  }

  /** No two kinds share a word, so the switch has no duplicate case. */
  lemma WordsDistinct(k1: CommandKind, k2: CommandKind)
    ensures Word(k1) == Word(k2) ==> k1 == k2
  {
  }

  /** Every registered word is already lower case, so it can match a lower-cased input word. */
  lemma WordsLowerCase(k: CommandKind)
    ensures Lower(Word(k)) == Word(k)
  {
  }

  /** The first kind in `reg` registered under w. */
  function Find(reg: seq<CommandKind>, w: string): (r: Option<CommandKind>)
    ensures r.Some? ==> r.value in reg && Word(r.value) == w
    ensures r.None? ==> forall k :: k in reg ==> Word(k) != w
  {
    if reg == [] then None
    else if Word(reg[0]) == w then Some(reg[0])
    else Find(reg[1..], w)
  }

  /** The switch on the lower-cased word: the kind registered under w, if any. */
  function Lookup(w: string): (r: Option<CommandKind>)
    ensures r.None? <==> forall k :: Word(k) != w
    ensures r.Some? ==> Word(r.value) == w
  {
    var r := Find(Registry, w);
    assert r.None? ==> forall k :: Word(k) != w by {
      if r.None? {
        forall k ensures Word(k) != w {
          RegistryComplete(k);
        }
      }
    }
    r
  }

  /** Looking a kind's word up finds that kind, and only its word does. */
  lemma LookupInvertsWord(k: CommandKind, w: string)
    ensures Lookup(w) == Some(k) <==> Word(k) == w
  {
    if Word(k) == w {
      WordsDistinct(k, Lookup(w).value);
    }
  }

  // ---- the pattern (\S+)(.*) ----------------------------------------------

  predicate NoRegexSpace(s: string) {
    forall i :: 0 <= i < |s| ==> !IsRegexSpace(s[i])
  }

  /** (\S+)(.*) matches t with the word group ending at n. */
  predicate MatchesAt(t: string, n: int) {
    1 <= n <= |t| && NoRegexSpace(t[..n]) && NoLineTerminator(t[n..])
  }

  /** The length of the leading run of non-space chars. */
  function WordLength(t: string): (n: nat)
    ensures n <= |t|
    ensures NoRegexSpace(t[..n])
    ensures n == |t| || IsRegexSpace(t[n])
  {
    if t == [] || IsRegexSpace(t[0]) then 0
    else
      var n := 1 + WordLength(t[1..]);
      assert t[..n] == [t[0]] + t[1..][..n - 1];
      n
  }

  /**
   * Matcher.matches() with the pattern (\S+)(.*): the word group takes the
   * longest run it can, and the whole string must be consumed.
   */
  function Match(t: string): (r: Option<(string, string)>)
    ensures r.None? <==> forall n :: !MatchesAt(t, n)
    ensures r.Some? ==> r.value.0 + r.value.1 == t && MatchesAt(t, |r.value.0|)
    ensures r.Some? ==> r.value.1 == [] || IsRegexSpace(r.value.1[0])
  {
    var n := WordLength(t);
    if n == 0 then
      None
    else if NoLineTerminator(t[n..]) then
      assert MatchesAt(t, n);
      Some((t[..n], t[n..]))
    else
      assert forall m :: !MatchesAt(t, m) by {
        forall m | 1 <= m <= |t| && NoRegexSpace(t[..m]) ensures !NoLineTerminator(t[m..]) {
          var j :| n <= j < |t| && IsLineTerminator(t[j]);
          assert t[m..][j - m] == t[j];
        }
      }
      None
  }

  /** The split is unique: any word with no space, followed by a single-line tail that is empty or starts with a space, is what the matcher finds. */
  lemma MatchFindsWordAndTail(w: string, a: string)
    requires |w| > 0 && NoRegexSpace(w)
    requires a == [] || IsRegexSpace(a[0])
    requires NoLineTerminator(a)
    ensures Match(w + a) == Some((w, a))
  {
    var t := w + a;
    assert t[..|w|] == w && t[|w|..] == a;
    WordEndsBeforeTail(w, a);
    assert MatchesAt(t, |w|);
  }

  /** The word group of w followed by a tail that is empty or starts with a space is w. */
  lemma WordEndsBeforeTail(w: string, a: string)
    requires |w| > 0 && NoRegexSpace(w)
    requires a == [] || IsRegexSpace(a[0])
    ensures WordLength(w + a) == |w|
  {
    var t := w + a;
    assert forall i :: 0 <= i < |w| ==> t[i] == w[i];
    assert a != [] ==> t[|w|] == a[0];
  }

  // ---- dispatch --------------------------------------------------------------

  /** The case body of the switch for kind k. */
  function Dispatch<P>(k: CommandKind, arguments: string, parse: ArgParser<P>): (r: Result<Command<P>, ParseError>) {
    if TakesNoArguments(k) then Success(NoArgCommand(k)) else parse(k, arguments)
  }

  /**
   * A case body looks at nothing but what its kind needs: a no-argument kind
   * ignores both the tail and the parsers, and an argument-taking kind depends
   * only on what its own parser makes of the tail.
   */
  lemma DispatchDependsOnlyOnItsParser<P>(k: CommandKind, a1: string, a2: string, p1: ArgParser<P>, p2: ArgParser<P>)
    ensures TakesNoArguments(k) ==> Dispatch(k, a1, p1) == Dispatch(k, a2, p2)
    ensures !TakesNoArguments(k) && p1(k, a1) == p2(k, a2) ==> Dispatch(k, a1, p1) == Dispatch(k, a2, p2)
  {
  }

  /**
   * parseCommand: a line with no word, or whose tail spans a line break, is
   * refused with the invalid-format error around the help usage.
   */
  function ParseCommand<P>(input: string, parse: ArgParser<P>): (r: Result<Command<P>, ParseError>)
    ensures AllTrimmable(input) ==> r == Failure(InvalidCommandFormat(HelpUsage))
    ensures (forall n :: !MatchesAt(Trim(input), n)) ==> r == Failure(InvalidCommandFormat(HelpUsage))
  {
    match Match(Trim(input))
    case None => Failure(InvalidCommandFormat(HelpUsage))
    case Some((word, arguments)) =>
      match Lookup(Lower(word))
      case None => Failure(UnknownCommand)
      case Some(k) => Dispatch(k, arguments, parse)
  }

  // ---- properties of parseCommand ----------------------------------------------

  /** A word of chars that trim never strips (so none is a regex space either). */
  predicate IsVisibleWord(w: string) {
    |w| > 0 && forall i :: 0 <= i < |w| ==> !IsTrimmable(w[i])
  }

  /**
   * An argument tail as typed after a word: empty or starting with a space,
   * and on one line once trim has dropped its trailing whitespace (so a
   * closing "\r\n" is allowed).
   */
  predicate IsArgumentTail(a: string) {
    (a == [] || IsRegexSpace(a[0])) && NoLineTerminator(TrimEnd(a))
  }

  /** Trimming a visible word followed by a tail only drops the tail's trailing whitespace. */
  lemma TrimWordAndTail(w: string, a: string)
    requires IsVisibleWord(w)
    ensures Trim(w + a) == w + TrimEnd(a)
  {
    assert (w + a)[0] == w[0];
    assert TrimStart(w + a) == w + a;
    if AllTrimmable(a) {
      TrimEndSkipsPadding(w, a);
      assert w[|w| - 1] == w[..|w|][|w| - 1];
      assert TrimEnd(w) == w;
      assert TrimEnd(a) == [] by {
        assert a[..0] == [];
      }
      assert w + [] == w;
    } else {
      TrimEndPrepend(w, a);
    }
  }

  /** A word that lower-cases to a registered command word is made of ASCII letters, so trim never strips any of it. */
  lemma RegisteredWordIsVisible(k: CommandKind, w: string)
    requires Lower(w) == Word(k)
    ensures IsVisibleWord(w)
  {
    forall i | 0 <= i < |w| ensures !IsTrimmable(w[i]) {
      assert Lower(w)[i] == LowerChar(w[i]);
    }
  }

  /**
   * How a line is read: with word w and tail a, parseCommand looks up the
   * lower-cased w and passes the tail, minus its trailing whitespace, on.
   */
  lemma ParseWordAndTail<P>(w: string, a: string, parse: ArgParser<P>)
    requires IsVisibleWord(w) && IsArgumentTail(a)
    ensures Lookup(Lower(w)).None? ==> ParseCommand(w + a, parse) == Failure(UnknownCommand)
    ensures Lookup(Lower(w)).Some? ==> ParseCommand(w + a, parse) == Dispatch(Lookup(Lower(w)).value, TrimEnd(a), parse)
  {
    TrimWordAndTail(w, a);
    var a' := TrimEnd(a);
    assert a' == [] || a'[0] == a[0];
    VisibleWordHasNoSpace(w);
    MatchFindsWordAndTail(w, a');
  }

  /** Whitespace around a line never changes how it parses. */
  lemma ParseIgnoresPadding<P>(ws1: string, s: string, ws2: string, parse: ArgParser<P>)
    requires AllTrimmable(ws1) && AllTrimmable(ws2)
    ensures ParseCommand(ws1 + s + ws2, parse) == ParseCommand(s, parse)
  {
    TrimIgnoresPadding(ws1, s, ws2);
  }

  /** The command word is matched regardless of case. */
  lemma ParseIsCaseInsensitive<P>(w1: string, w2: string, a: string, parse: ArgParser<P>)
    requires IsVisibleWord(w1) && IsVisibleWord(w2) && IsArgumentTail(a)
    requires Lower(w1) == Lower(w2)
    ensures ParseCommand(w1 + a, parse) == ParseCommand(w2 + a, parse)
  {
    ParseWordAndTail(w1, a, parse);
    ParseWordAndTail(w2, a, parse);
  }

  /** A word that is not registered, in any case, is an unknown command. */
  lemma UnknownWordRejected<P>(w: string, a: string, parse: ArgParser<P>)
    requires IsVisibleWord(w) && IsArgumentTail(a)
    requires forall k :: Word(k) != Lower(w)
    ensures ParseCommand(w + a, parse) == Failure(UnknownCommand)
  {
    ParseWordAndTail(w, a, parse);
  }

  /** An argument-taking command gets the tail verbatim, bar trailing whitespace, and its parser's result is returned as is. */
  lemma ArgumentsReachTheirParser<P>(k: CommandKind, w: string, a: string, parse: ArgParser<P>)
    requires !TakesNoArguments(k)
    requires IsArgumentTail(a) && Lower(w) == Word(k)
    ensures ParseCommand(w + a, parse) == parse(k, TrimEnd(a))
  {
    RegisteredWordIsVisible(k, w);
    ParseWordAndTail(w, a, parse);
    LookupInvertsWord(k, Lower(w));
  }

  /** clear, list, exit, help, sort and sortpriority ignore whatever follows the word. */
  lemma NoArgCommandsIgnoreTail<P>(k: CommandKind, w: string, a: string, parse: ArgParser<P>)
    requires TakesNoArguments(k)
    requires IsArgumentTail(a) && Lower(w) == Word(k)
    ensures ParseCommand(w + a, parse) == Success(NoArgCommand(k))
  {
    RegisteredWordIsVisible(k, w);
    ParseWordAndTail(w, a, parse);
    LookupInvertsWord(k, Lower(w));
  }

  /** Blank lines are refused with the invalid-format error. */
  lemma BlankExamples<P>(parse: ArgParser<P>)
    ensures ParseCommand("", parse) == Failure(InvalidCommandFormat(HelpUsage))
    ensures ParseCommand("   ", parse) == Failure(InvalidCommandFormat(HelpUsage))
  {
  }

  /** A tail that runs onto another line breaks the pattern: the line is refused, not dispatched. */
  lemma LineBreakRejected<P>(w: string, a: string, parse: ArgParser<P>)
    requires IsVisibleWord(w) && |a| > 0 && IsRegexSpace(a[0])
    requires !NoLineTerminator(TrimEnd(a))
    ensures ParseCommand(w + a, parse) == Failure(InvalidCommandFormat(HelpUsage))
  {
    TrimWordAndTail(w, a);
    var a' := TrimEnd(a);
    assert a'[0] == a[0];
    TailWithLineBreakUnmatched(w, a');
  }

  lemma TailWithLineBreakUnmatched(w: string, a: string)
    requires IsVisibleWord(w) && |a| > 0 && IsRegexSpace(a[0])
    requires !NoLineTerminator(a)
    ensures Match(w + a) == None
  {
    VisibleWordHasNoSpace(w);
    WordEndsBeforeTail(w, a);
    assert (w + a)[|w|..] == a;
  }

  lemma VisibleWordHasNoSpace(w: string)
    requires IsVisibleWord(w)
    ensures NoRegexSpace(w)
  {
    forall i | 0 <= i < |w| ensures !IsRegexSpace(w[i]) {
      RegexSpaceIsTrimmable(w[i]);
    }
  }

  lemma LineBreakExample<P>(parse: ArgParser<P>)
    ensures ParseCommand("list" + "\nclear", parse) == Failure(InvalidCommandFormat(HelpUsage))
  {
    assert TrimEnd("\nclear") == "\nclear";
    assert IsLineTerminator("\nclear"[0]);
    LineBreakRejected("list", "\nclear", parse);
  }

  /** A no-argument command word stands alone once the line's padding is trimmed. */
  lemma PaddedNoArgCommand<P>(k: CommandKind, ws1: string, w: string, ws2: string, parse: ArgParser<P>)
    requires TakesNoArguments(k)
    requires AllTrimmable(ws1) && AllTrimmable(ws2)
    requires Lower(w) == Word(k)
    ensures ParseCommand(ws1 + w + ws2, parse) == Success(NoArgCommand(k))
  {
    ParseIgnoresPadding(ws1, w, ws2, parse);
    assert w + [] == w;
    NoArgCommandsIgnoreTail(k, w, [], parse);
  }

  lemma PaddedListExample<P>(parse: ArgParser<P>)
    ensures ParseCommand("  " + "LIST" + "  ", parse) == Success(NoArgCommand(List))
  {
    PaddedNoArgCommand(List, "  ", "LIST", "  ", parse);
  }

  lemma ExitWithTailExample<P>(parse: ArgParser<P>)
    ensures ParseCommand("Exit" + " now", parse) == Success(NoArgCommand(Exit))
  {
    NoArgCommandsIgnoreTail(Exit, "Exit", " now", parse);
  }

  lemma UnknownWordExample<P>(parse: ArgParser<P>)
    ensures ParseCommand("frobnicate" + " 1", parse) == Failure(UnknownCommand)
  {
    UnknownWordRejected("frobnicate", " 1", parse);
  }

  lemma DeletePolicyLineExample<P>(parse: ArgParser<P>)
    ensures ParseCommand("deletePolicy" + " 1 t/Life ", parse) == parse(DeletePolicy, " 1 t/Life")
  {
    assert Lower("deletePolicy") == Word(DeletePolicy);
    assert TrimEnd(" 1 t/Life ") == " 1 t/Life";
    ArgumentsReachTheirParser(DeletePolicy, "deletePolicy", " 1 t/Life ", parse);
  }

  /** A line typed with a closing "\r\n" reaches its parser without it. */
  lemma CrLfLineExample<P>(parse: ArgParser<P>)
    ensures ParseCommand("deletePolicy" + " 1\r\n", parse) == parse(DeletePolicy, " 1")
  {
    assert Lower("deletePolicy") == Word(DeletePolicy);
    assert " 1\r\n" == " 1" + "\r\n";
    TrimEndSkipsPadding(" 1", "\r\n");
    assert TrailingStart(" 1") == 2;
    assert TrimEnd(" 1") == " 1";
    ArgumentsReachTheirParser(DeletePolicy, "deletePolicy", " 1\r\n", parse);
  }
}
