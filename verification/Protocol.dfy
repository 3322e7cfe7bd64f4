/** Names shared by client and daemon (internal/protocol) and the text of overflow notices. */
module Protocol {

  const STDOUT := "stdout"
  const STDERR := "stderr"
  const SYSTEM := "system"

  const VERSION := 2

  datatype Kind = Start | Output | Exit | Other(name: string)

  /** One record of the wrapper-to-daemon stream; fields that only decorate messages are left out. */
  datatype Event = Event(
    version: int, kind: Kind, runID: string,
    channelID: string, command: seq<string>, environment: map<string, string>,
    stream: string, data: string)

  function OutputEvent(runID: string, stream: string, data: string): Event {
    Event(VERSION, Output, runID, "", [], map[], stream, data)
  }

  function Digit(d: nat): char
    requires d < 10
  {
    "0123456789"[d]
  }

  /** A number as the notices print it. */
  function Decimal(n: nat): (s: string)
    ensures s != []
  {
    (if n < 10 then [] else Decimal(n / 10)) + [Digit(n % 10)]
  }

  function DigitValue(c: char): nat {
    if '0' <= c <= '9' then (c - '0') as int else 0
  }

  function ReadDecimal(s: string): nat {
    if s == [] then 0 else 10 * ReadDecimal(s[..|s| - 1]) + DigitValue(s[|s| - 1])
  }

  /** The figure in a notice can be read back. */
  lemma {:induction false} DecimalReadsBack(n: nat)
    ensures ReadDecimal(Decimal(n)) == n
  {
    var init := if n < 10 then [] else Decimal(n / 10);
    assert Decimal(n)[..|Decimal(n)| - 1] == init;
    assert DigitValue(Digit(n % 10)) == n % 10;
    if n >= 10 {
      DecimalReadsBack(n / 10);
    }
  }

  /** And it is printed without leading zeros. */
  lemma {:induction false} DecimalIsShort(n: nat)
    ensures n > 0 ==> Decimal(n)[0] != '0'
    ensures n < 10 ==> |Decimal(n)| == 1
  {
    if n >= 10 {
      DecimalIsShort(n / 10);
      assert Decimal(n)[0] == Decimal(n / 10)[0];
    }
  }
}
