/**
 * The input validators of backend/utils/validators.js. The `validator` library's
 * `isLength` is taken to count characters as sequence elements; `isEmail` is a
 * foreign predicate and is not part of this module (the auth store receives it).
 */
module Validators {
  import Seqs

  const NameMinLength := 2
  const NameMaxLength := 50
  const TitleMaxLength := 100
  const ContentMaxLength := 10000
  const PasswordMinLength := 8

  /** `validator.isLength(s, { min, max })`. */
  predicate IsLength(s: string, min: nat, max: nat) {
    min <= |s| <= max
  }

  /** validateName */
  predicate ValidName(name: string)
    ensures ValidName(name) <==> 2 <= |name| <= 50
  {
    IsLength(name, NameMinLength, NameMaxLength)
  }

  /** validateNoteTitle */
  predicate ValidNoteTitle(title: string)
    ensures ValidNoteTitle(title) <==> 1 <= |title| <= 100
  {
    IsLength(title, 1, TitleMaxLength)
  }

  /** validateNoteContent */
  predicate ValidNoteContent(content: string)
    ensures ValidNoteContent(content) <==> 1 <= |content| <= 10000
  {
    IsLength(content, 1, ContentMaxLength)
  }

  // The character classes `validator.isStrongPassword` counts.
  predicate IsLower(c: char) { 'a' <= c <= 'z' }
  predicate IsUpper(c: char) { 'A' <= c <= 'Z' }
  predicate IsNumber(c: char) { '0' <= c <= '9' }
  predicate IsSymbol(c: char) { c in "-#!$@£%^&*()_+|~=`{}[]:\";'<>?,./\\ " }

  /** validatePassword: `isStrongPassword` with at least 8 characters and at least one of each class. */
  predicate ValidPassword(password: string) {
    && |password| >= PasswordMinLength
    && Seqs.Count(password, IsLower) >= 1
    && Seqs.Count(password, IsUpper) >= 1
    && Seqs.Count(password, IsNumber) >= 1
    && Seqs.Count(password, IsSymbol) >= 1
  }

  /** A strong password is one of at least 8 characters that contains a lower-case letter, an upper-case letter, a digit and a symbol. */
  lemma PasswordRule(password: string)
    ensures ValidPassword(password) <==>
      && |password| >= 8
      && (exists i :: 0 <= i < |password| && IsLower(password[i]))
      && (exists i :: 0 <= i < |password| && IsUpper(password[i]))
      && (exists i :: 0 <= i < |password| && IsNumber(password[i]))
      && (exists i :: 0 <= i < |password| && IsSymbol(password[i]))
  {
    Seqs.CountPositive(password, IsLower);
    Seqs.CountPositive(password, IsUpper);
    Seqs.CountPositive(password, IsNumber);
    Seqs.CountPositive(password, IsSymbol);
  }
}
