// The bits of some powers of 3, with a certificate for each product on the way to 3^255.

module PowerCertificates {
  import opened BitLists

  function Power1(): Bits { Empty.I().I() }
  function Power2(): Bits { Empty.I().O().I() }
  function Power4(): Bits { Empty.I().O().O().O().I() }
  function Power5(): Bits { Empty.I().I().O().O().I().I() }
  function Power8(): Bits { Empty.I().I().O().I().O() }
  function Power10(): Bits { Empty.I().I().I().O().O().I().O() }
  function Power15(): Bits { Empty.I().I().O().I().O().I() }
  function Power17(): Bits { Empty.I().I().I().O().O().O().O().I() }
  function Power25(): Bits { Empty.I().O() }
  function Power50(): Bits { Empty.I().O().O() }
  function Power51(): Bits { Empty.I().I().O().O() }
  function Power75(): Bits { Empty.I().O().O().O() }
  function Power85(): Bits { Empty.I().O().I().I().I().I().O().I() }
  function Power102(): Bits { Empty.I().O().I().O().O().O().O() }
  function Power153(): Bits { Empty.I().I().I().O().I().I().O().I() }
  function Power204(): Bits { Empty.I().O().I().I().O().O().O().O() }
  function Power255(): Bits { Empty.I() }

  lemma Certificate2()
    ensures Certifies(Power1(), Power1(), Empty, Power2())
    ensures Value(Power2()) == 0x5
  {
  }

  lemma Certificate4()
    ensures Certifies(Power2(), Power2(), Empty, Power4())
    ensures Value(Power4()) == 0x11
  {
  }

  lemma Certificate5()
    ensures Certifies(Power4(), Power1(), Empty, Power5())
    ensures Value(Power5()) == 0x33
  {
  }

  lemma Certificate8()
    ensures Certifies(Power4(), Power4(), Empty.I(), Power8())
    ensures Value(Power8()) == 0x1a
  {
  }

  lemma Certificate10()
    ensures Certifies(Power5(), Power5(), Empty.I().O().I(), Power10())
    ensures Value(Power10()) == 0x72
  {
  }

  lemma Certificate15()
    ensures Certifies(Power5(), Power10(), Empty.I().O().O().I(), Power15())
    ensures Value(Power15()) == 0x35
  {
  }

  lemma Certificate17()
    ensures Certifies(Power15(), Power2(), Empty, Power17())
    ensures Value(Power17()) == 0xe1
  {
  }

  lemma Certificate25()
    ensures Certifies(Power17(), Power8(), Empty.I().O().O().O(), Power25())
    ensures Value(Power25()) == 0x2
  {
  }

  lemma Certificate50()
    ensures Certifies(Power25(), Power25(), Empty, Power50())
    ensures Value(Power50()) == 0x4
  {
  }

  lemma Certificate51()
    ensures Certifies(Power50(), Power1(), Empty, Power51())
    ensures Value(Power51()) == 0xc
  {
  }

  lemma Certificate75()
    ensures Certifies(Power50(), Power25(), Empty, Power75())
    ensures Value(Power75()) == 0x8
  {
  }

  lemma Certificate85()
    ensures Certifies(Power10(), Power75(), Empty.I().I(), Power85())
    ensures Value(Power85()) == 0xbd
  {
  }

  lemma Certificate102()
    ensures Certifies(Power51(), Power51(), Empty, Power102())
    ensures Value(Power102()) == 0x50
  {
  }

  lemma Certificate153()
    ensures Certifies(Power102(), Power51(), Empty.I().I(), Power153())
    ensures Value(Power153()) == 0xed
  {
  }

  lemma Certificate204()
    ensures Certifies(Power153(), Power51(), Empty.I().O().O(), Power204())
    ensures Value(Power204()) == 0xb0
  {
  }

  lemma Certificate255()
    ensures Certifies(Power204(), Power51(), Empty.I().I().I(), Power255())
    ensures Value(Power255()) == 0x1
  {
  }
}
