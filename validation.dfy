/** ValidationUtil: stateless checks that either return normally or throw
    an IllegalArgumentException carrying a message. Each is a function from
    its argument to an `Outcome`, so none can change what it inspects. */
module Validation {
  import opened Base
  import opened Text
  import opened Format
  import opened Model

  /** `validateNotNull(obj, message)`. */
  function ValidateNotNull(obj: object?, message: string): (r: Outcome<Failure>)
    ensures r.Pass? <==> obj != null
    ensures r.Fail? ==> r.error == Invalid(message)
  {
    if obj == null then Fail(Invalid(message)) else Pass
  }

  /** `validateNotEmpty(str, message)`: null and blank strings are refused. */
  function ValidateNotEmpty(str: Option<string>, message: string): (r: Outcome<Failure>)
    ensures r.Pass? <==> str.Some? && exists i :: 0 <= i < |str.value| && !IsTrimmable(str.value[i])
    ensures r.Fail? ==> r.error == Invalid(message)
  {
    if str.None? then Fail(Invalid(message))
    else
      if IsBlank(str.value) then Fail(Invalid(message)) else Pass
  }

  /** `validatePositive(number, message)`, on the exact value of the number. */
  function ValidatePositive(number: Option<real>, message: string): (r: Outcome<Failure>)
    ensures r.Pass? <==> number.Some? && number.value > 0.0
    ensures r.Fail? ==> r.error == Invalid(message)
  {
    if number.None? || number.value <= 0.0 then Fail(Invalid(message)) else Pass
  }

  // ---------------------------------------------------------------- email

  /** `[A-Za-z0-9+_.-]` */
  predicate IsLocalChar(c: char) {
    'A' <= c <= 'Z' || 'a' <= c <= 'z' || '0' <= c <= '9' || c == '+' || c == '_' || c == '.' || c == '-'
  }

  /** `[A-Za-z0-9.-]` */
  predicate IsDomainChar(c: char) {
    'A' <= c <= 'Z' || 'a' <= c <= 'z' || '0' <= c <= '9' || c == '.' || c == '-'
  }

  /** `[A-Za-z]` */
  predicate IsLetter(c: char) {
    'A' <= c <= 'Z' || 'a' <= c <= 'z'
  }

  predicate AllLocal(s: string) {
    forall i :: 0 <= i < |s| ==> IsLocalChar(s[i])
  }

  predicate AllDomain(s: string) {
    forall i :: 0 <= i < |s| ==> IsDomainChar(s[i])
  }

  predicate AllLetters(s: string) {
    forall i :: 0 <= i < |s| ==> IsLetter(s[i])
  }

  /** The whole string matches `^[A-Za-z0-9+_.-]+@[A-Za-z0-9.-]+\.[A-Za-z]{2,}$`:
      some split into local part, '@', domain, '.', and a top-level part of
      two letters or more. */
  ghost predicate EmailPattern(s: string) {
    exists i, j :: 0 < i && i + 1 < j && j + 2 < |s| && s[i] == '@' && s[j] == '.'
      && AllLocal(s[..i]) && AllDomain(s[i + 1..j]) && AllLetters(s[j + 1..])
  }

  /** The index of the first '@', or |s| when there is none. */
  function FirstAt(s: string): (k: nat)
    ensures k <= |s| && (k < |s| ==> s[k] == '@')
    ensures forall m :: 0 <= m < k ==> s[m] != '@'
  {
    if s == [] then 0
    else if s[0] == '@' then 0
    else 1 + FirstAt(s[1..])
  }

  /** The index of the last '.', or -1 when there is none. */
  function LastDot(s: string): (k: int)
    ensures -1 <= k < |s| && (k >= 0 ==> s[k] == '.')
    ensures forall m :: k < m < |s| ==> s[m] != '.'
  {
    if s == [] then -1
    else if s[|s| - 1] == '.' then |s| - 1
    else LastDot(s[..|s| - 1])
  }

  /** The recogniser: the separating '@' can only be the first one, since
      no part after it admits an '@', and the separating '.' can only be
      the last one, since the letters after it admit none. */
  predicate IsEmailFormat(s: string) {
    var i := FirstAt(s);
    if i == |s| then false
    else
      var t := s[i + 1..];
      var j := LastDot(t);
      0 < i && 0 < j && j + 2 < |t| && AllLocal(s[..i]) && AllDomain(t[..j]) && AllLetters(t[j + 1..])
  }

  lemma EmailFormatMatches(s: string)
    requires IsEmailFormat(s)
    ensures EmailPattern(s)
  {
    var i := FirstAt(s);
    var t := s[i + 1..];
    var j := LastDot(t);
    assert t[..j] == s[i + 1..i + 1 + j];
    assert t[j + 1..] == s[i + 1 + j + 1..];
    assert s[i + 1 + j] == '.';
  }

  lemma FirstAtIs(s: string, a: nat)
    requires a < |s| && s[a] == '@' && forall m :: 0 <= m < a ==> s[m] != '@'
    ensures FirstAt(s) == a
  {
  }

  lemma LastDotIs(t: string, d: nat)
    requires d < |t| && t[d] == '.' && forall m :: d < m < |t| ==> t[m] != '.'
    ensures LastDot(t) == d
  {
  }

  lemma SliceOfSuffix(s: string, a: nat, b: nat)
    requires a < b <= |s|
    ensures s[a..][..b - a] == s[a..b] && s[a..][b - a..] == s[b..]
  {
  }

  lemma NoAtIn(s: string)
    requires AllLocal(s)
    ensures forall m :: 0 <= m < |s| ==> s[m] != '@'
  {
  }

  lemma NoDotIn(s: string)
    requires AllLetters(s)
    ensures forall m :: 0 <= m < |s| ==> s[m] != '.'
  {
  }

  /** The recogniser finds the split at `a` and `b`: '@' at `a` is the
      first one and '.' at `b` the last one. */
  lemma RecognisedAt(s: string, a: nat, b: nat)
    requires 0 < a && a + 1 < b && b + 2 < |s| && s[a] == '@' && s[b] == '.'
    requires AllLocal(s[..a]) && AllDomain(s[a + 1..b]) && AllLetters(s[b + 1..])
    ensures IsEmailFormat(s)
  {
    NoAtIn(s[..a]);
    FirstAtIs(s, a);
    var t := s[a + 1..];
    var d := b - a - 1;
    SliceOfSuffix(s, a + 1, b);
    SliceOfSuffix(s, a + 1, b + 1);
    NoDotIn(t[d + 1..]);
    assert forall m :: d < m < |t| ==> t[m] == t[d + 1..][m - d - 1];
    LastDotIs(t, d);
  }

  lemma EmailPatternRecognised(s: string)
    requires EmailPattern(s)
    ensures IsEmailFormat(s)
  {
    var a, b :| 0 < a && a + 1 < b && b + 2 < |s| && s[a] == '@' && s[b] == '.'
      && AllLocal(s[..a]) && AllDomain(s[a + 1..b]) && AllLetters(s[b + 1..]);
    RecognisedAt(s, a, b);
  }

  /** The recogniser accepts exactly the strings that match the pattern. */
  lemma IsEmailFormatIffPattern(s: string)
    ensures IsEmailFormat(s) <==> EmailPattern(s)
  {
    if IsEmailFormat(s) {
      EmailFormatMatches(s);
    }
    if EmailPattern(s) {
      EmailPatternRecognised(s);
    }
  }

  /** A matching address has exactly one '@', and every other char of it
      is in the local-part class: none is one that `trim` would strip. */
  lemma EmailPatternShape(s: string)
    requires EmailPattern(s)
    ensures forall k :: 0 <= k < |s| ==> !IsTrimmable(s[k])
    ensures forall k, m :: 0 <= k < |s| && 0 <= m < |s| && s[k] == '@' && s[m] == '@' ==> k == m
  {
    var i, j :| 0 < i && i + 1 < j && j + 2 < |s| && s[i] == '@' && s[j] == '.'
      && AllLocal(s[..i]) && AllDomain(s[i + 1..j]) && AllLetters(s[j + 1..]);
    forall k | 0 <= k < |s|
      ensures k == i || IsLocalChar(s[k])
    {
      if k < i {
        assert s[..i][k] == s[k];
      } else if i < k < j {
        assert s[i + 1..j][k - i - 1] == s[k];
      } else if j < k {
        assert s[j + 1..][k - j - 1] == s[k];
      }
    }
  }

  lemma PatternNotBlank(s: string)
    ensures EmailPattern(s) ==> !IsBlank(s)
  {
    if EmailPattern(s) {
      EmailPatternShape(s);
      assert !IsTrimmable(s[0]);
    }
  }

  /** `validateEmail(email)`: the non-blank check first, then the shape. */
  function ValidateEmail(email: Option<string>): (r: Outcome<Failure>)
    ensures r.Pass? <==> email.Some? && EmailPattern(email.value)
    ensures email.None? || IsBlank(email.value) ==> r == Fail(Invalid("Email cannot be empty"))
    ensures email.Some? && !IsBlank(email.value) && !EmailPattern(email.value) ==>
      r == Fail(Invalid("Invalid email format: " + email.value))
  {
    if email.None? then Fail(Invalid("Email cannot be empty"))
    else
      PatternNotBlank(email.value);
      IsEmailFormatIffPattern(email.value);
      if ValidateNotEmpty(email, "Email cannot be empty").Fail? then Fail(Invalid("Email cannot be empty"))
      else if !IsEmailFormat(email.value) then Fail(Invalid("Invalid email format: " + email.value))
      else Pass
  }

  // ---------------------------------------------------------------- entities

  /** `validateUser(user)`, checks in the source's order. */
  function ValidateUser(user: User?): (r: Outcome<Failure>)
    reads user
    ensures r.Pass? <==>
      (user != null && !IsBlank(user.name) && EmailPattern(user.email) && !IsBlank(user.password) && Utf16Length(user.password) >= 6)
    ensures user == null ==> r == Fail(Invalid("User cannot be null"))
    ensures user != null && IsBlank(user.name) ==> r == Fail(Invalid("User name cannot be empty"))
    ensures user != null && !IsBlank(user.name) && !EmailPattern(user.email) ==> r == ValidateEmail(Some(user.email))
    ensures user != null && !IsBlank(user.name) && EmailPattern(user.email) && IsBlank(user.password) ==>
      r == Fail(Invalid("Password cannot be empty"))
    ensures (user != null && !IsBlank(user.name) && EmailPattern(user.email) && !IsBlank(user.password)
      && Utf16Length(user.password) < 6) ==> r == Fail(Invalid("Password must be at least 6 characters long"))
  {
    if user == null then Fail(Invalid("User cannot be null"))
    else if ValidateNotEmpty(Some(user.name), "User name cannot be empty").Fail? then
      Fail(Invalid("User name cannot be empty"))
    else if ValidateEmail(Some(user.email)).Fail? then
      ValidateEmail(Some(user.email))
    else if ValidateNotEmpty(Some(user.password), "Password cannot be empty").Fail? then
      Fail(Invalid("Password cannot be empty"))
    else if Utf16Length(user.password) < 6 then
      Fail(Invalid("Password must be at least 6 characters long"))
    else
      Pass
  }

  /** The checks `validateProduct` makes on a product, on its name, its
      category and its price, in the source's order. */
  function CheckProduct(name: string, category: string, price: real): (r: Outcome<Failure>)
    ensures r.Pass? <==> !IsBlank(name) && !IsBlank(category) && price > 0.0
    ensures IsBlank(name) ==> r == Fail(Invalid("Product name cannot be empty"))
    ensures !IsBlank(name) && IsBlank(category) ==> r == Fail(Invalid("Product category cannot be empty"))
    ensures !IsBlank(name) && !IsBlank(category) && price <= 0.0 ==>
      r == Fail(Invalid("Product price must be greater than zero"))
  {
    if ValidateNotEmpty(Some(name), "Product name cannot be empty").Fail? then
      Fail(Invalid("Product name cannot be empty"))
    else if ValidateNotEmpty(Some(category), "Product category cannot be empty").Fail? then
      Fail(Invalid("Product category cannot be empty"))
    else if price <= 0.0 then
      Fail(Invalid("Product price must be greater than zero"))
    else Pass
  }

  /** `validateProduct(product)`: null first, then the field checks. */
  function ValidateProduct(product: Product?): (r: Outcome<Failure>)
    reads product
    ensures product == null ==> r == Fail(Invalid("Product cannot be null"))
    ensures product != null ==> r == CheckProduct(product.name, product.category, product.price)
  {
    if product == null then Fail(Invalid("Product cannot be null"))
    else CheckProduct(product.name, product.category, product.price)
  }

  // ---------------------------------------------------------------- CPF and phone

  /** `validateCPF(cpf)`: non-blank, then exactly eleven digits. */
  function ValidateCPF(cpf: Option<string>): (r: Outcome<Failure>)
    ensures r.Pass? <==> cpf.Some? && |Digits(cpf.value)| == 11
    ensures cpf.None? || IsBlank(cpf.value) ==> r == Fail(Invalid("CPF cannot be empty"))
    ensures cpf.Some? && !IsBlank(cpf.value) && |Digits(cpf.value)| != 11 ==> r == Fail(Invalid("CPF must have 11 digits"))
  {
    if cpf.None? then Fail(Invalid("CPF cannot be empty"))
    else if ValidateNotEmpty(cpf, "CPF cannot be empty").Fail? then
      BlankHasNoDigits(cpf.value);
      Fail(Invalid("CPF cannot be empty"))
    else
      if |Digits(cpf.value)| != 11 then Fail(Invalid("CPF must have 11 digits")) else Pass
  }

  /** `validatePhone(phone)`: non-blank, then ten or eleven digits. */
  function ValidatePhone(phone: Option<string>): (r: Outcome<Failure>)
    ensures r.Pass? <==> phone.Some? && 10 <= |Digits(phone.value)| <= 11
    ensures phone.None? || IsBlank(phone.value) ==> r == Fail(Invalid("Phone cannot be empty"))
    ensures phone.Some? && !IsBlank(phone.value) && !(10 <= |Digits(phone.value)| <= 11) ==>
      r == Fail(Invalid("Invalid phone number"))
  {
    if phone.None? then Fail(Invalid("Phone cannot be empty"))
    else if ValidateNotEmpty(phone, "Phone cannot be empty").Fail? then
      BlankHasNoDigits(phone.value);
      Fail(Invalid("Phone cannot be empty"))
    else
      if |Digits(phone.value)| < 10 || |Digits(phone.value)| > 11 then Fail(Invalid("Invalid phone number")) else Pass
  }

  /** Exactly the CPFs that validate get the mask, and a masked CPF still
      validates. */
  lemma ValidCPFIsMasked(cpf: string)
    ensures ValidateCPF(Some(cpf)).Pass? <==> IsCpfMask(FormatCPF(cpf))
    ensures ValidateCPF(Some(cpf)).Pass? ==> ValidateCPF(Some(FormatCPF(cpf))).Pass?
  {
    FormatCPFKeepsDigits(cpf);
    if IsCpfMask(FormatCPF(cpf)) {
      CpfMaskDigits(FormatCPF(cpf));
    }
  }

  /** Exactly the phone numbers that validate get one of the two masks, and
      a masked phone number still validates. */
  lemma ValidPhoneIsMasked(phone: string)
    ensures ValidatePhone(Some(phone)).Pass? <==>
      var n := |Digits(phone)|; (n == 10 || n == 11) && IsPhoneMask(FormatPhone(phone), n)
    ensures ValidatePhone(Some(phone)).Pass? ==> ValidatePhone(Some(FormatPhone(phone))).Pass?
  {
    FormatPhoneKeepsDigits(phone);
  }
}
