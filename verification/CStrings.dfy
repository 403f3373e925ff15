/** C strings, without their terminators. */
module CStrings {
  type CString = s: seq<char> | '\0' !in s witness []
}
