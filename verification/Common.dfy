/** What several of the modules need: optional results, two text predicates of the C library, small facts. */
module Common {

  datatype Option<+T> = None | Some(value: T)

  const NUL: char := '\0'

  /** Whitespace as scanf and atoi understand it. */
  predicate IsSpace(c: char) {
    c == ' ' || c == '\t' || c == '\n' || c == '\U{000B}' || c == '\U{000C}' || c == '\r'
  }

  /** strncmp(s, prefix, strlen(prefix)) == 0 */
  predicate StartsWith(s: string, prefix: string) { |prefix| <= |s| && s[..|prefix|] == prefix }

  lemma Associative<T>(a: seq<T>, b: seq<T>, c: seq<T>)
    ensures (a + b) + c == a + (b + c)
  {
  }

  lemma SameHead<T>(x: T, xs: seq<T>, y: T, ys: seq<T>)
    requires [x] + xs == [y] + ys
    ensures x == y && xs == ys
  {
    assert ([x] + xs)[0] == x && ([y] + ys)[0] == y;
    assert ([x] + xs)[1..] == xs && ([y] + ys)[1..] == ys;
  }

  /** Multiples of c are at least c apart. */
  lemma Gap(c: nat, a: nat, b: nat)
    ensures a < b ==> c * b >= c * a + c
  {
    if a < b {
      var d := b - a - 1;
      assert c * b == c * a + c + c * d;
    }
  }
}
