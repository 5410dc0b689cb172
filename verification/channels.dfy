/**
 * Measurement functions of scan-list positions. Each script decides a position's
 * function from its scan-list code with its own rule; the same rule is used when the
 * range table is built and when a sample at that position is decoded.
 */
module Channels {
  import opened Words

  datatype Function = Voltage | Thermocouple | DigitalIn | RateIn | CounterIn

  /**
   * DI-1110 and the starter-kit models: the low nibble alone. Below 8 is an analog
   * (voltage) channel, 8 the digital inputs, 9 the rate input, anything else the counter.
   */
  function ClassifyByNibble(item: Word): (f: Function)
    ensures f == Voltage <==> Nibble(item) < 8
    ensures f == DigitalIn <==> Nibble(item) == 8
    ensures f == RateIn <==> Nibble(item) == 9
    ensures f == CounterIn <==> Nibble(item) >= 10
    ensures f != Thermocouple
  {
    var n := Nibble(item);
    if n < 8 then Voltage
    else if n == 8 then DigitalIn
    else if n == 9 then RateIn
    else CounterIn
  }

  /**
   * DI-2008: an analog nibble (below 8) is a voltage channel with the mode bit clear
   * and a thermocouple with it set; the other functions are chosen as on the DI-1110.
   */
  function ClassifyDi2008(item: Word): (f: Function)
    ensures f == Voltage <==> Nibble(item) < 8 && !ModeBit(item)
    ensures f == Thermocouple <==> Nibble(item) < 8 && ModeBit(item)
    ensures f == DigitalIn <==> Nibble(item) == 8
    ensures f == RateIn <==> Nibble(item) == 9
    ensures f == CounterIn <==> Nibble(item) >= 10
  {
    var n := Nibble(item);
    if n < 8 && !ModeBit(item) then Voltage
    else if n < 8 then Thermocouple
    else if n == 8 then DigitalIn
    else if n == 9 then RateIn
    else CounterIn
  }

  /** DI-245: only voltage and thermocouple channels; the mode bit alone decides. */
  function ClassifyDi245(item: Word): (f: Function)
    ensures f == Voltage <==> !ModeBit(item)
    ensures f == Thermocouple <==> ModeBit(item)
  {
    if ModeBit(item) then Thermocouple else Voltage
  }

  /** The DI-2008 rule refines the nibble rule: it only splits analog codes in two. */
  lemma Di2008RefinesNibble(item: Word)
    ensures ClassifyDi2008(item) == Thermocouple ==> ClassifyByNibble(item) == Voltage
    ensures ClassifyDi2008(item) != Thermocouple ==> ClassifyDi2008(item) == ClassifyByNibble(item)
  {
  }
}
