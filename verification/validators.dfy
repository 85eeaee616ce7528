/**
 * Registration checks of users/validators.py. Each check collects one message
 * per failed rule, and user_validation runs all three checks and keeps the
 * non-empty lists under their field names.
 */
module Validators {
  import opened Common

  /**
   * The character classes the password library tests for. They are
   * parameters: the library's own definitions are not part of this model.
   */
  datatype CharClasses = CharClasses(
    upper: char -> bool,
    lower: char -> bool,
    digit: char -> bool,
    space: char -> bool,
    symbol: char -> bool)

  /** The password rules, in the order password_validator tests them. */
  datatype Rule = MinLength | MaxLength | HasUpper | HasLower | HasDigit | NoSpaces | HasSymbol


  function RuleIndex(rule: Rule): nat
  {
    match rule
    case MinLength => 0
    case MaxLength => 1
    case HasUpper => 2
    case HasLower => 3
    case HasDigit => 4
    case NoSpaces => 5
    case HasSymbol => 6
  }

  /** Some character of `s` belongs to the class `c`. */
  predicate Any(s: string, c: char -> bool)
  {
    exists i :: 0 <= i < |s| && c(s[i])
  }

  predicate Holds(rule: Rule, password: string, cls: CharClasses)
  {
    match rule
    case MinLength => |password| >= 8
    case MaxLength => |password| <= 50
    case HasUpper => Any(password, cls.upper)
    case HasLower => Any(password, cls.lower)
    case HasDigit => Any(password, cls.digit)
    case NoSpaces => !Any(password, cls.space)
    case HasSymbol => Any(password, cls.symbol)
  }

  const MinLengthMessage := "Password must be at least 8 characters."
  const MaxLengthMessage := "Password must not exceed 50 characters."
  const HasUpperMessage := "Password must contain at least one uppercase letter."
  const HasLowerMessage := "Password must contain at least one lowercase letter."
  const HasDigitMessage := "Password must contain at least one digit."
  const NoSpacesMessage := "Password must not contain spaces."
  const HasSymbolMessage := "Password must contain at least one symbol."

  function Message(rule: Rule): string
  {
    match rule
    case MinLength => MinLengthMessage
    case MaxLength => MaxLengthMessage
    case HasUpper => HasUpperMessage
    case HasLower => HasLowerMessage
    case HasDigit => HasDigitMessage
    case NoSpaces => NoSpacesMessage
    case HasSymbol => HasSymbolMessage
  }

  /** Distinct rules have distinct messages, so a message names its rule. */
  lemma MessageInjective(a: Rule, b: Rule)
    ensures Message(a) == Message(b) ==> a == b
  {
  }

  /** The rule tested k-th (the inverse of RuleIndex). */
  function RuleAt(k: nat): (rule: Rule)
    requires k < 7
    ensures RuleIndex(rule) == k
  {
    if k == 0 then MinLength else if k == 1 then MaxLength else if k == 2 then HasUpper
    else if k == 3 then HasLower else if k == 4 then HasDigit else if k == 5 then NoSpaces
    else HasSymbol
  }

  /** The broken rules of one rule: itself or nothing. */
  function Check(rule: Rule, password: string, cls: CharClasses): seq<Rule>
  {
    if Holds(rule, password, cls) then [] else [rule]
  }

  /** The rules before the k-th that `password` breaks, in rule order. */
  function BrokenBefore(k: nat, password: string, cls: CharClasses): seq<Rule>
    requires k <= 7
  {
    if k == 0 then [] else BrokenBefore(k - 1, password, cls) + Check(RuleAt(k - 1), password, cls)
  }

  function Messages(rules: seq<Rule>): (r: seq<string>)
    ensures |r| == |rules|
    ensures forall i :: 0 <= i < |rules| ==> r[i] == Message(rules[i])
  {
    seq(|rules|, i requires 0 <= i < |rules| => Message(rules[i]))
  }

  lemma MessagesSnoc(rules: seq<Rule>, rule: Rule)
    ensures Messages(rules + [rule]) == Messages(rules) + [Message(rule)]
  {
  }

  /** What password_validator returns: one message per broken rule, in rule order. */
  function PasswordErrors(password: string, cls: CharClasses): seq<string>
  {
    Messages(BrokenBefore(7, password, cls))
  }

  lemma {:induction false} BrokenBeforeMembers(k: nat, password: string, cls: CharClasses)
    requires k <= 7
    ensures |BrokenBefore(k, password, cls)| <= k
    ensures forall rule :: rule in BrokenBefore(k, password, cls) <==>
      RuleIndex(rule) < k && !Holds(rule, password, cls)
  {
    if k > 0 {
      BrokenBeforeMembers(k - 1, password, cls);
      forall rule | RuleIndex(rule) == k - 1 ensures rule == RuleAt(k - 1) {
      }
    }
  }

  /** The broken rules come in strictly increasing rule order. */
  lemma {:induction false} BrokenBeforeOrdered(k: nat, password: string, cls: CharClasses)
    requires k <= 7
    ensures var b := BrokenBefore(k, password, cls);
            forall i, j :: 0 <= i < j < |b| ==> RuleIndex(b[i]) < RuleIndex(b[j])
  {
    if k > 0 {
      var front := BrokenBefore(k - 1, password, cls);
      var b := BrokenBefore(k, password, cls);
      BrokenBeforeOrdered(k - 1, password, cls);
      BrokenBeforeMembers(k - 1, password, cls);
      forall i, j | 0 <= i < j < |b| ensures RuleIndex(b[i]) < RuleIndex(b[j]) {
        if j >= |front| {
          assert b[j] == RuleAt(k - 1);
          assert b[i] == front[i] && front[i] in front;
        }
      }
    }
  }

  /**
   * password_validator reports exactly the broken rules, each once and in the
   * fixed rule order, so never more than seven messages; no messages means
   * the password meets every rule.
   */
  lemma PasswordErrorsSpec(password: string, cls: CharClasses)
    ensures var errors := PasswordErrors(password, cls);
            && |errors| <= 7
            && (forall rule :: Message(rule) in errors <==> !Holds(rule, password, cls))
            && (errors == [] <==> forall rule :: Holds(rule, password, cls))
            && exists broken: seq<Rule> ::
                 && errors == Messages(broken)
                 && (forall i, j :: 0 <= i < j < |broken| ==> RuleIndex(broken[i]) < RuleIndex(broken[j]))
  {
    var broken := BrokenBefore(7, password, cls);
    var errors := PasswordErrors(password, cls);
    BrokenBeforeMembers(7, password, cls);
    BrokenBeforeOrdered(7, password, cls);
    forall rule | Message(rule) in errors ensures !Holds(rule, password, cls) {
      var i :| 0 <= i < |errors| && errors[i] == Message(rule);
      MessageInjective(broken[i], rule);
    }
    forall rule | !Holds(rule, password, cls) ensures Message(rule) in errors {
      var i :| 0 <= i < |broken| && broken[i] == rule;
      assert errors[i] == Message(rule);
    }
    if errors != [] {
      assert Message(broken[0]) in errors;
    }
  }

  /** A password cannot be both too short and too long, so those two messages never come together. */
  lemma LengthMessagesExclusive(password: string, cls: CharClasses)
    ensures !(Message(MinLength) in PasswordErrors(password, cls) &&
              Message(MaxLength) in PasswordErrors(password, cls))
  {
    PasswordErrorsSpec(password, cls);
  }

  /**
   * 'Password123' has upper- and lower-case letters and digits but, for
   * character classes that count none of its characters as a symbol or a
   * space, no symbol: its only message is the missing symbol.
   */
  lemma MissingSymbolExample(cls: CharClasses)
    requires cls.upper('P') && cls.lower('a') && cls.digit('1')
    requires forall i :: 0 <= i < |"Password123"| ==> !cls.symbol("Password123"[i]) && !cls.space("Password123"[i])
    ensures PasswordErrors("Password123", cls) == ["Password must contain at least one symbol."]
  {
    var pw := "Password123";
    assert pw[0] == 'P' && pw[1] == 'a' && pw[8] == '1';
    assert Any(pw, cls.upper) && Any(pw, cls.lower) && Any(pw, cls.digit);
    assert !Any(pw, cls.symbol) && !Any(pw, cls.space);
    assert BrokenBefore(1, pw, cls) == [];
    assert BrokenBefore(2, pw, cls) == [];
    assert BrokenBefore(3, pw, cls) == [];
    assert BrokenBefore(4, pw, cls) == [];
    assert BrokenBefore(5, pw, cls) == [];
    assert BrokenBefore(6, pw, cls) == [];
    assert BrokenBefore(7, pw, cls) == [HasSymbol];
  }

  /** password_validator: each failed rule appends its message. */
  method PasswordValidator(password: string, cls: CharClasses) returns (errors: seq<string>)
    ensures errors == PasswordErrors(password, cls)
  {
    errors := [];
    ghost var broken: seq<Rule> := [];
    if |password| < 8 {
      MessagesSnoc(broken, MinLength);
      errors, broken := errors + [Message(MinLength)], broken + [MinLength];
    }
    assert errors == Messages(broken) && broken == BrokenBefore(1, password, cls);
    if |password| > 50 {
      MessagesSnoc(broken, MaxLength);
      errors, broken := errors + [Message(MaxLength)], broken + [MaxLength];
    }
    assert errors == Messages(broken) && broken == BrokenBefore(2, password, cls);
    if !Holds(HasUpper, password, cls) {
      MessagesSnoc(broken, HasUpper);
      errors, broken := errors + [Message(HasUpper)], broken + [HasUpper];
    }
    assert errors == Messages(broken) && broken == BrokenBefore(3, password, cls);
    if !Holds(HasLower, password, cls) {
      MessagesSnoc(broken, HasLower);
      errors, broken := errors + [Message(HasLower)], broken + [HasLower];
    }
    assert errors == Messages(broken) && broken == BrokenBefore(4, password, cls);
    if !Holds(HasDigit, password, cls) {
      MessagesSnoc(broken, HasDigit);
      errors, broken := errors + [Message(HasDigit)], broken + [HasDigit];
    }
    assert errors == Messages(broken) && broken == BrokenBefore(5, password, cls);
    if !Holds(NoSpaces, password, cls) {
      MessagesSnoc(broken, NoSpaces);
      errors, broken := errors + [Message(NoSpaces)], broken + [NoSpaces];
    }
    assert errors == Messages(broken) && broken == BrokenBefore(6, password, cls);
    if !Holds(HasSymbol, password, cls) {
      MessagesSnoc(broken, HasSymbol);
      errors, broken := errors + [Message(HasSymbol)], broken + [HasSymbol];
    }
    assert errors == Messages(broken) && broken == BrokenBefore(7, password, cls);
  }

  const UsernameTaken := "Username used before!"
  const EmailTaken := "Email used before!"

  /**
   * The profiles already registered. A lookup that finds the empty string
   * reads as "not found", because `.first()` returns the stored name and
   * Python treats "" as false.
   */
  datatype Registry = Registry(usernames: set<string>, emails: set<string>)

  predicate UsernameInUse(username: string, registry: Registry)
  {
    username in registry.usernames && username != ""
  }

  predicate EmailInUse(email: string, registry: Registry)
  {
    email in registry.emails && email != ""
  }

  /** username_validator: the one message when the name is in use, nothing otherwise. */
  method UsernameValidator(username: string, registry: Registry) returns (errors: seq<string>)
    ensures UsernameInUse(username, registry) <==> errors == [UsernameTaken]
    ensures !UsernameInUse(username, registry) <==> errors == []
  {
    errors := [];
    if UsernameInUse(username, registry) {
      errors := errors + [UsernameTaken];
    }
  }

  /** What email_validator returns; `syntax` gives the first syntax error of the address, if any. */
  function EmailErrors(email: string, registry: Registry, syntax: string -> Option<string>): (r: seq<string>)
    ensures |r| == (if EmailInUse(email, registry) then 1 else 0) + (if syntax(email).Some? then 1 else 0)
    ensures EmailInUse(email, registry) ==> r[0] == EmailTaken
    ensures syntax(email).Some? ==> r[|r| - 1] == syntax(email).value
  {
    (if EmailInUse(email, registry) then [EmailTaken] else []) +
    (match syntax(email) case Some(msg) => [msg] case None => [])
  }

  /**
   * email_validator: both checks always run, so an address both in use and
   * malformed gets two messages, the in-use one first.
   */
  method EmailValidator(email: string, registry: Registry, syntax: string -> Option<string>)
    returns (errors: seq<string>)
    ensures errors == EmailErrors(email, registry, syntax)
  {
    errors := [];
    if EmailInUse(email, registry) {
      errors := errors + [EmailTaken];
    }
    match syntax(email) {
      case Some(msg) => errors := errors + [msg];
      case None =>
    }
  }

  datatype Field = UsernameField | EmailField | PasswordField

  function FieldErrors(field: Field, username: string, email: string, password: string,
                       registry: Registry, syntax: string -> Option<string>, cls: CharClasses): seq<string>
  {
    match field
    case UsernameField => if UsernameInUse(username, registry) then [UsernameTaken] else []
    case EmailField => EmailErrors(email, registry, syntax)
    case PasswordField => PasswordErrors(password, cls)
  }

  /**
   * user_validation: all three checks run, and a field appears in the result
   * exactly when its check produced messages, mapped to those messages.
   */
  method UserValidation(username: string, email: string, password: string,
                        registry: Registry, syntax: string -> Option<string>, cls: CharClasses)
    returns (errors: map<Field, seq<string>>)
    ensures forall f :: f in errors <==> FieldErrors(f, username, email, password, registry, syntax, cls) != []
    ensures forall f :: f in errors ==> errors[f] == FieldErrors(f, username, email, password, registry, syntax, cls)
  {
    errors := map[];
    var usernameErr := UsernameValidator(username, registry);
    if usernameErr != [] {
      errors := errors[UsernameField := usernameErr];
    }
    var emailErr := EmailValidator(email, registry, syntax);
    if emailErr != [] {
      errors := errors[EmailField := emailErr];
    }
    var passwordErr := PasswordValidator(password, cls);
    if passwordErr != [] {
      errors := errors[PasswordField := passwordErr];
    }
  }

  /**
   * A taken username, a malformed address and a password breaking any rule are
   * all reported together: each field's check fails on its own input alone.
   */
  lemma AllFieldsReported(username: string, email: string, password: string,
                          registry: Registry, syntax: string -> Option<string>, cls: CharClasses)
    requires UsernameInUse(username, registry)
    requires syntax(email).Some?
    requires exists rule :: !Holds(rule, password, cls)
    ensures forall f :: FieldErrors(f, username, email, password, registry, syntax, cls) != []
  {
    PasswordErrorsSpec(password, cls);
  }
}
