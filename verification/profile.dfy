/**
 * The profile update of `PATCH /user/:user_id`: the nickname is trimmed with
 * `String.prototype.trim`, must then be at least 2 long (JavaScript's
 * `length`, which counts UTF-16 code units), and the patch holds the trimmed
 * name plus the avatar when one was supplied.
 */
module Profile {
  import opened Errors
  import opened Users

  /** The ECMAScript WhiteSpace and LineTerminator code points, which `trim` removes. */
  predicate IsTrimmable(c: char) {
    || c == '\t' || c == '\n' || c == '\U{000B}' || c == '\U{000C}' || c == '\r' || c == ' '
    || c == '\U{00A0}' || c == '\U{1680}' || '\U{2000}' <= c <= '\U{200A}'
    || c == '\U{2028}' || c == '\U{2029}' || c == '\U{202F}' || c == '\U{205F}'
    || c == '\U{3000}' || c == '\U{FEFF}'
  }

  /** How many trimmable characters `s` starts with. */
  function LeadingSpace(s: string): (n: nat)
    ensures n <= |s|
    ensures forall k :: 0 <= k < n ==> IsTrimmable(s[k])
    ensures n < |s| ==> !IsTrimmable(s[n])
  {
    if s != [] && IsTrimmable(s[0]) then 1 + LeadingSpace(s[1..]) else 0
  }

  /** How many trimmable characters `s` ends with. */
  function TrailingSpace(s: string): (n: nat)
    ensures n <= |s|
    ensures forall k :: |s| - n <= k < |s| ==> IsTrimmable(s[k])
    ensures n < |s| ==> !IsTrimmable(s[|s| - n - 1])
  {
    if s != [] && IsTrimmable(s[|s| - 1]) then 1 + TrailingSpace(s[..|s| - 1]) else 0
  }

  /**
   * `String.prototype.trim`: the longest slice of `s` that neither starts nor
   * ends with a trimmable character; everything cut off is trimmable.
   */
  function Trim(s: string): (r: string)
    ensures LeadingSpace(s) + |r| <= |s| && r == s[LeadingSpace(s)..LeadingSpace(s) + |r|]
    ensures forall k :: 0 <= k < |s| && !(LeadingSpace(s) <= k < LeadingSpace(s) + |r|) ==> IsTrimmable(s[k])
    ensures r == [] || (!IsTrimmable(r[0]) && !IsTrimmable(r[|r| - 1]))
  {
    var lo := LeadingSpace(s);
    var t := s[lo..];
    var r := t[..|t| - TrailingSpace(t)];
    assert forall k :: lo + |r| <= k < |s| ==> s[k] == t[k - lo];
    r
  }

  /** Trimming twice is trimming once. */
  lemma TrimIsIdempotent(s: string)
    ensures Trim(Trim(s)) == Trim(s)
  {
    var r := Trim(s);
    if r != [] {
      assert LeadingSpace(r) == 0;
      assert TrailingSpace(r) == 0;
      assert r[0..] == r && r[..|r|] == r;
    }
  }

  /** A string of trimmable characters only (the empty string included) trims to "". */
  lemma BlankTrimsToEmpty(s: string)
    requires forall k :: 0 <= k < |s| ==> IsTrimmable(s[k])
    ensures Trim(s) == ""
  {
  }

  /** JavaScript's `length` of `s`: a code point above U+FFFF takes two UTF-16 code units. */
  function Utf16Length(s: string): (n: nat)
    ensures |s| <= n <= 2 * |s|
  {
    if s == [] then 0 else (if s[0] as int >= 0x1_0000 then 2 else 1) + Utf16Length(s[1..])
  }

  /** The nickname length rule: two characters, or one character outside the Basic Multilingual Plane. */
  lemma {:induction false} LongEnoughIff(s: string)
    ensures Utf16Length(s) >= 2 <==> |s| >= 2 || (|s| == 1 && s[0] as int >= 0x1_0000)
  {
    if |s| == 1 {
      assert s[1..] == [];
    }
  }

  /** The fields `updateUserInfo` writes: the trimmed name and, if supplied, the avatar. */
  datatype ProfilePatch = ProfilePatch(name: string, avatar: Option<string>)

  /**
   * `updateUserInfo` up to the store write. `name.trim()` runs before any check, so a
   * missing name is a runtime fault even when `user_id` is missing too.
   */
  function ProfilePatchFor(userId: string, name: Option<string>, avatar: Option<string>): (r: Result<ProfilePatch>)
    ensures r == Err(RuntimeFault) <==> name.None?
    ensures r == Err(FieldFailed) <==> name.Some? && userId == ""
    ensures r == Err(NameTooShort) <==> name.Some? && userId != "" && Utf16Length(Trim(name.value)) < 2
    ensures r.Ok? <==> name.Some? && userId != "" && Utf16Length(Trim(name.value)) >= 2
    ensures r.Ok? ==> && r.value.name == Trim(name.value)
                      && Utf16Length(r.value.name) >= 2
                      && !IsTrimmable(r.value.name[0]) && !IsTrimmable(r.value.name[|r.value.name| - 1])
                      && r.value.avatar == avatar
  {
    match name
    case None => Err(RuntimeFault)
    case Some(raw) =>
      var trimmed := Trim(raw);
      if userId == "" then Err(FieldFailed)
      else if Utf16Length(trimmed) < 2 then Err(NameTooShort)
      else Ok(ProfilePatch(trimmed, avatar))
  }

  /** The user document after `findByIdAndUpdate` with the patch: only name and avatar change. */
  function ApplyProfile(u: User, p: ProfilePatch): (v: User)
    ensures v.name == p.name && v.avatar == p.avatar.GetOr(u.avatar)
    ensures v.followings == u.followings && v.followers == u.followers
  {
    match p.avatar
    case None => u.(name := p.name)
    case Some(a) => u.(name := p.name, avatar := a)
  }
}
