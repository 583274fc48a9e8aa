/** Where the constants of MD5 come from: section 3.4 of RFC 1321. */
module Md5Constants {
  import opened Md5

  type Word = n: nat | n < 0x1_0000_0000

  // ----- sine and cosine at the whole numbers -----

  function SinTerm(i: nat): real {
    if i == 0 then 1.0 else -SinTerm(i - 1) / ((2 * i) * (2 * i + 1)) as real
  }

  function CosTerm(i: nat): real {
    if i == 0 then 1.0 else -CosTerm(i - 1) / ((2 * i - 1) * (2 * i)) as real
  }

  /** The series of the sine and the cosine at 1, up to term `m`. */
  function SinSum(m: nat): real { if m == 0 then SinTerm(0) else SinSum(m - 1) + SinTerm(m) }
  function CosSum(m: nat): real { if m == 0 then CosTerm(0) else CosSum(m - 1) + CosTerm(m) }

  /** The formulas for the sine and the cosine of a sum. */
  predicate SineOfSum(x: real, y: real, s1: real, c1: real, z: real) { z == x * c1 + y * s1 }
  predicate CosineOfSum(x: real, y: real, s1: real, c1: real, z: real) { z == y * c1 - x * s1 }

  ghost predicate Adds(s: nat -> real, c: nat -> real, n: nat) {
    SineOfSum(s(n), c(n), s(1), c(1), s(n + 1)) && CosineOfSum(s(n), c(n), s(1), c(1), c(n + 1))
  }

  ghost predicate Between(s: nat -> real, c: nat -> real, m: nat) {
    SinSum(2 * m + 1) <= s(1) <= SinSum(2 * m) && CosSum(2 * m + 1) <= c(1) <= CosSum(2 * m)
  }

  /** What sine and cosine satisfy: their values at 0, the addition formulas, and the series at 1, whose
      terms alternate and shrink, so that the value lies between any two that follow each other. */
  ghost predicate SineCosine(s: nat -> real, c: nat -> real) {
    && s(0) == 0.0 && c(0) == 1.0
    && (forall n {:trigger Adds(s, c, n)} :: Adds(s, c, n))
    && (forall m {:trigger Between(s, c, m)} :: Between(s, c, m))
  }

  // ----- approximations, in units of 10^-36 -----

  datatype Pair = Pair(s: int, c: int)

  const UNIT: int := 1000000000000000000000000000000000000
  const SIN1: int := 841470984807896506652502321630299000
  const COS1: int := 540302305868139717400936607442976604

  const ROW0: seq<Pair> := [
    Pair(841470984807896506652502321630299000, 540302305868139717400936607442976604),
    Pair(909297426825681695396019865911744844, -416146836547142386997568229500762190),
    Pair(141120008059867222100744802808110280, -989992496600445457271572794731261304),
    Pair(-756802495307928251372639094511829096, -653643620863611914639168183097750383),
    Pair(-958924274663138468893154406155993976, 283662185463226264466639171513557309),
    Pair(-279415498198925872811555446611894761, 960170286650366020545652297922924408),
    Pair(656986598718789090396999091593635180, 753902254343304638141197521719182015),
    Pair(989358246623381777808123598245288676, -145500033808613525868841381831194683)
  ]

  const ROW1: seq<Pair> := [
    Pair(412118485241756569756272566352435181, -911130261884676988368294711181165315),
    Pair(-544021110889369813404747661851377284, -839071529076452452258863947824064838),
    Pair(-999990206550703457051564899025522111, 4425697988050785748355024723941573),
    Pair(-536572918000434971665374228242401795, 843853958732492104653955293173621787),
    Pair(420167036826640921868955035476882790, 907446781450196213852686155474475855),
    Pair(990607355694870307875354804014585609, 136737218207833594248928876671738242),
    Pair(650287840157116865829740270988870330, -759687912858821273848146403633280548),
    Pair(-287903316665065294784456248218617530, -957659480323384641899637232651103478)
  ]

  const ROW2: seq<Pair> := [
    Pair(-961397491879556857261636944869156104, -275163338051596922220342656551862902),
    Pair(-750987246771676103750156084447114538, 660316708244080144816100044790450788),
    Pair(149877209662952329754239321238253949, 988704618186669252898352856548157276),
    Pair(912945250727627654376099983845682308, 408082061813391986062267860927644962),
    Pair(836655638536056031866480770245023784, -547729260224268421384271132950982012),
    Pair(-8851309290403875921690256815772331, -999960826394637126454174739212693783),
    Pair(-846220404175170635241326271905595935, -532833020333397555215757657164125810),
    Pair(-905578362006623845135793358527793332, 424179007336996975937050944759206482)
  ]

  const ROW3: seq<Pair> := [
    Pair(-132351750097773028902005093883606304, 991202811863473598083294718815924207),
    Pair(762558450479602737515823293204562981, 646919322328640342721383901888901610),
    Pair(956375928404503013432340558329192962, -292138808733836193371404835837629915),
    Pair(270905788307869019986343092778792537, -962605866313566601975453057899308862),
    Pair(-663633884212967502151173340061105159, -748057529689000351765191792255140812),
    Pair(-988031624092861789987748907294458163, 154251449887584050718662146614210198),
    Pair(-404037645323065006048770899664237204, 914742357804531278962435826150354778),
    Pair(551426681241690550661558166845712823, 834223360506510272215526470870292318)
  ]

  const ROW4: seq<Pair> := [
    Pair(999911860107267145728084376707828328, -13276747223059478915220031371007039),
    Pair(529082686120023820832487134032104761, -848570274784605186599972087712383171),
    Pair(-428182669496151004406752891745940672, -903692205091506759847304572083770566),
    Pair(-991778853443115736835288968840815793, -127963689627404681028327977914371215),
    Pair(-643538133356999460685670019080795551, 765414051945343356491081292902511712),
    Pair(296368578709385317392296649849017326, 955073644047294857586536235405876969),
    Pair(963795386284087753260664971765882130, 266642932359937251526825794975632756),
    Pair(745113160479348786987709402636344354, -666938061652261844384092781933699999)
  ]

  const ROW5: seq<Pair> := [
    Pair(-158622668804708987103317011929687035, -987339277523826458228825133414827654),
    Pair(-916521547915633785898989158069671518, -399985314988351293954707337177202035),
    Pair(-831774742628598288209578256291752255, 555113301520625677044879441962591975),
    Pair(17701925105413577807954053166616700, 999843308647691220069009016637856050),
    Pair(850903524534118424862379677618041135, 525321988817729696047464404823562928),
    Pair(901788347648809185033293039222738586, -432177944884778294952776524132768507),
    Pair(123573122745224004061529348086410550, -992335469150928718279752420344862177),
    Pair(-768254661323666799044965664845893510, -640144339469199731312941419393077191)
  ]

  const ROW6: seq<Pair> := [
    Pair(-953752652759471818360423558587710614, 300592543743637083687026000490561385),
    Pair(-262374853703928785914393646912622550, 964966028492113274068957058901017012),
    Pair(670229175843374734494345074950666823, 742154196813782539467377175736955964),
    Pair(986627592040485296587568934436740132, -162990780795705481003329815425211691),
    Pair(395925150181834181503386139263539280, -918282786212118891199726323216472108),
    Pair(-558789048851616245817871318965393810, -829309832863150147727850042488168739),
    Pair(-999755173358619836598631683243892221, 22126756261955734563564262146626503),
    Pair(-521551002086911880187410021510600548, 853220107722584113969681233914913771)
  ]

  const ROW7: seq<Pair> := [
    Pair(436164755247824959080534793129243500, 899866826969193786503000404657835127),
    Pair(992872648084537118165088164425399842, 119180135448819285435843610766963924),
    Pair(636738007139137880771233492376829397, -771080222975845229387435296376289212),
    Pair(-304810621102216705625649465478425850, -952412980415156292693816595992933320),
    Pair(-966117770008392947018287989480518177, -258101635938267445701207347152754041),
    Pair(-739180696649222867276016933755436652, 673507162323586252887833405953936510),
    Pair(167355700302806921527838370288718035, 985896581582549697438635756053977181),
    Pair(920026038196790683351536603777251892, 391857230429550005161709858513122951)
  ]

  const START: Pair := Pair(0, UNIT)

  /** Sine and cosine of k + 1. */
  function Approx(k: nat): Pair
    requires k < 64
  {
    if k < 8 then ROW0[k] else if k < 16 then ROW1[k - 8] else if k < 24 then ROW2[k - 16]
    else if k < 32 then ROW3[k - 24] else if k < 40 then ROW4[k - 32] else if k < 48 then ROW5[k - 40]
    else if k < 56 then ROW6[k - 48] else ROW7[k - 56]
  }

  predicate Within(x: int, bound: int) { -bound <= x <= bound }

  /** One application of the addition formulas, up to rounding. */
  predicate Stepped(p: Pair, q: Pair) {
    && Within(p.s, UNIT) && Within(p.c, UNIT)
    && Within(p.s * COS1 + p.c * SIN1 - q.s * UNIT, UNIT)
    && Within(p.c * COS1 - p.s * SIN1 - q.c * UNIT, UNIT)
  }

  predicate RowSteps(row: seq<Pair>) { |row| == 8 && forall j :: 0 <= j < 7 ==> Stepped(row[j], row[j + 1]) }

  lemma Row0()
    ensures RowSteps(ROW0) && Stepped(START, ROW0[0])
  {
    assert Stepped(ROW0[0], ROW0[1]);
    assert Stepped(ROW0[1], ROW0[2]);
    assert Stepped(ROW0[2], ROW0[3]);
    assert Stepped(ROW0[3], ROW0[4]);
    assert Stepped(ROW0[4], ROW0[5]);
    assert Stepped(ROW0[5], ROW0[6]);
    assert Stepped(ROW0[6], ROW0[7]);
  }

  lemma Row1()
    ensures RowSteps(ROW1) && Stepped(ROW0[7], ROW1[0])
  {
    assert Stepped(ROW1[0], ROW1[1]);
    assert Stepped(ROW1[1], ROW1[2]);
    assert Stepped(ROW1[2], ROW1[3]);
    assert Stepped(ROW1[3], ROW1[4]);
    assert Stepped(ROW1[4], ROW1[5]);
    assert Stepped(ROW1[5], ROW1[6]);
    assert Stepped(ROW1[6], ROW1[7]);
  }

  lemma Row2()
    ensures RowSteps(ROW2) && Stepped(ROW1[7], ROW2[0])
  {
    assert Stepped(ROW2[0], ROW2[1]);
    assert Stepped(ROW2[1], ROW2[2]);
    assert Stepped(ROW2[2], ROW2[3]);
    assert Stepped(ROW2[3], ROW2[4]);
    assert Stepped(ROW2[4], ROW2[5]);
    assert Stepped(ROW2[5], ROW2[6]);
    assert Stepped(ROW2[6], ROW2[7]);
  }

  lemma Row3()
    ensures RowSteps(ROW3) && Stepped(ROW2[7], ROW3[0])
  {
    assert Stepped(ROW3[0], ROW3[1]);
    assert Stepped(ROW3[1], ROW3[2]);
    assert Stepped(ROW3[2], ROW3[3]);
    assert Stepped(ROW3[3], ROW3[4]);
    assert Stepped(ROW3[4], ROW3[5]);
    assert Stepped(ROW3[5], ROW3[6]);
    assert Stepped(ROW3[6], ROW3[7]);
  }

  lemma Row4()
    ensures RowSteps(ROW4) && Stepped(ROW3[7], ROW4[0])
  {
    assert Stepped(ROW4[0], ROW4[1]);
    assert Stepped(ROW4[1], ROW4[2]);
    assert Stepped(ROW4[2], ROW4[3]);
    assert Stepped(ROW4[3], ROW4[4]);
    assert Stepped(ROW4[4], ROW4[5]);
    assert Stepped(ROW4[5], ROW4[6]);
    assert Stepped(ROW4[6], ROW4[7]);
  }

  lemma Row5()
    ensures RowSteps(ROW5) && Stepped(ROW4[7], ROW5[0])
  {
    assert Stepped(ROW5[0], ROW5[1]);
    assert Stepped(ROW5[1], ROW5[2]);
    assert Stepped(ROW5[2], ROW5[3]);
    assert Stepped(ROW5[3], ROW5[4]);
    assert Stepped(ROW5[4], ROW5[5]);
    assert Stepped(ROW5[5], ROW5[6]);
    assert Stepped(ROW5[6], ROW5[7]);
  }

  lemma Row6()
    ensures RowSteps(ROW6) && Stepped(ROW5[7], ROW6[0])
  {
    assert Stepped(ROW6[0], ROW6[1]);
    assert Stepped(ROW6[1], ROW6[2]);
    assert Stepped(ROW6[2], ROW6[3]);
    assert Stepped(ROW6[3], ROW6[4]);
    assert Stepped(ROW6[4], ROW6[5]);
    assert Stepped(ROW6[5], ROW6[6]);
    assert Stepped(ROW6[6], ROW6[7]);
  }

  lemma Row7()
    ensures RowSteps(ROW7) && Stepped(ROW6[7], ROW7[0])
  {
    assert Stepped(ROW7[0], ROW7[1]);
    assert Stepped(ROW7[1], ROW7[2]);
    assert Stepped(ROW7[2], ROW7[3]);
    assert Stepped(ROW7[3], ROW7[4]);
    assert Stepped(ROW7[4], ROW7[5]);
    assert Stepped(ROW7[5], ROW7[6]);
    assert Stepped(ROW7[6], ROW7[7]);
  }

  lemma ApproxSteps(k: nat)
    requires 0 < k < 64
    ensures Stepped(Approx(k - 1), Approx(k))
  {
    if k < 8 { Row0(); } else if k < 16 { Row1(); } else if k < 24 { Row2(); } else if k < 32 { Row3(); }
    else if k < 40 { Row4(); } else if k < 48 { Row5(); } else if k < 56 { Row6(); } else { Row7(); }
  }

  // ----- the series at 1 -----

  lemma Quotient(x: real, d: real, y: real)
    requires d != 0.0 && x * d == y
    ensures x == y / d
  {}

  lemma SinNext(i: nat, t: real, s: real, t': real, s': real)
    requires i > 0 && SinTerm(i - 1) == t && SinSum(i - 1) == s
    requires t' * ((2 * i) * (2 * i + 1)) as real == -t && s' == s + t'
    ensures SinTerm(i) == t' && SinSum(i) == s'
  {
    Quotient(t', ((2 * i) * (2 * i + 1)) as real, -t);
  }

  lemma CosNext(i: nat, t: real, s: real, t': real, s': real)
    requires i > 0 && CosTerm(i - 1) == t && CosSum(i - 1) == s
    requires t' * ((2 * i - 1) * (2 * i)) as real == -t && s' == s + t'
    ensures CosTerm(i) == t' && CosSum(i) == s'
  {
    Quotient(t', ((2 * i - 1) * (2 * i)) as real, -t);
  }

  lemma SinSeries8()
    ensures SinTerm(8) == 1.0 / 355687428096000.0
    ensures SinSum(8) == 23023126954133.0 / 27360571392000.0
  {
    SinNext(1, 1.0 / 1.0, 1.0 / 1.0,
            -1.0 / 6.0, 5.0 / 6.0);
    SinNext(2, -1.0 / 6.0, 5.0 / 6.0,
            1.0 / 120.0, 101.0 / 120.0);
    SinNext(3, 1.0 / 120.0, 101.0 / 120.0,
            -1.0 / 5040.0, 4241.0 / 5040.0);
    SinNext(4, -1.0 / 5040.0, 4241.0 / 5040.0,
            1.0 / 362880.0, 305353.0 / 362880.0);
    SinNext(5, 1.0 / 362880.0, 305353.0 / 362880.0,
            -1.0 / 39916800.0, 33588829.0 / 39916800.0);
    SinNext(6, -1.0 / 39916800.0, 33588829.0 / 39916800.0,
            1.0 / 6227020800.0, 209594293.0 / 249080832.0);
    SinNext(7, 1.0 / 6227020800.0, 209594293.0 / 249080832.0,
            -1.0 / 1307674368000.0, 1100370038249.0 / 1307674368000.0);
    SinNext(8, -1.0 / 1307674368000.0, 1100370038249.0 / 1307674368000.0,
            1.0 / 355687428096000.0, 23023126954133.0 / 27360571392000.0);
  }

  lemma SinSeries13()
    ensures SinTerm(13) == -1.0 / 10888869450418352160768000000.0
    ensures SinSum(13) == 9162667699888149594768114701.0 / 10888869450418352160768000000.0
  {
    SinSeries8();
    SinNext(9, 1.0 / 355687428096000.0, 23023126954133.0 / 27360571392000.0,
            -1.0 / 121645100408832000.0, 102360822438075317.0 / 121645100408832000.0);
    SinNext(10, -1.0 / 121645100408832000.0, 102360822438075317.0 / 121645100408832000.0,
            1.0 / 51090942171709440000.0, 42991545423991633141.0 / 51090942171709440000.0);
    SinNext(11, 1.0 / 51090942171709440000.0, 42991545423991633141.0 / 51090942171709440000.0,
            -1.0 / 25852016738884976640000.0, 4350744396907953273869.0 / 5170403347776995328000.0);
    SinNext(12, -1.0 / 25852016738884976640000.0, 4350744396907953273869.0 / 5170403347776995328000.0,
            1.0 / 15511210043330985984000000.0, 13052233190723859821607001.0 / 15511210043330985984000000.0);
    SinNext(13, 1.0 / 15511210043330985984000000.0, 13052233190723859821607001.0 / 15511210043330985984000000.0,
            -1.0 / 10888869450418352160768000000.0, 9162667699888149594768114701.0 / 10888869450418352160768000000.0);
  }

  lemma SinSeries16()
    ensures SinTerm(16) == 1.0 / 8683317618811886495518194401280000000.0
    ensures SinSum(16) == 1461351965620279402134450901894828397.0 / 1736663523762377299103638880256000000.0
  {
    SinSeries13();
    SinNext(14, -1.0 / 10888869450418352160768000000.0, 9162667699888149594768114701.0 / 10888869450418352160768000000.0,
            1.0 / 8841761993739701954543616000000.0, 7440086172309177470951709137213.0 / 8841761993739701954543616000000.0);
    SinNext(15, 1.0 / 8841761993739701954543616000000.0, 7440086172309177470951709137213.0 / 8841761993739701954543616000000.0,
            -1.0 / 8222838654177922817725562880000000.0, 364172638960396581472899447242531.0 / 432780981798838043038187520000000.0);
    SinNext(16, -1.0 / 8222838654177922817725562880000000.0, 364172638960396581472899447242531.0 / 432780981798838043038187520000000.0,
            1.0 / 8683317618811886495518194401280000000.0, 1461351965620279402134450901894828397.0 / 1736663523762377299103638880256000000.0);
  }

  lemma SinSeries17()
    ensures SinTerm(17) == -1.0 / 10333147966386144929666651337523200000000.0
    ensures SinSum(17) == 8695044195440662442699982866274228962149.0 / 10333147966386144929666651337523200000000.0
  {
    SinSeries16();
    SinNext(17, 1.0 / 8683317618811886495518194401280000000.0, 1461351965620279402134450901894828397.0 / 1736663523762377299103638880256000000.0,
            -1.0 / 10333147966386144929666651337523200000000.0, 8695044195440662442699982866274228962149.0 / 10333147966386144929666651337523200000000.0);
  }

  lemma CosSeries8()
    ensures CosTerm(8) == 1.0 / 20922789888000.0
    ensures CosSum(8) == 11304631621681.0 / 20922789888000.0
  {
    CosNext(1, 1.0 / 1.0, 1.0 / 1.0,
            -1.0 / 2.0, 1.0 / 2.0);
    CosNext(2, -1.0 / 2.0, 1.0 / 2.0,
            1.0 / 24.0, 13.0 / 24.0);
    CosNext(3, 1.0 / 24.0, 13.0 / 24.0,
            -1.0 / 720.0, 389.0 / 720.0);
    CosNext(4, -1.0 / 720.0, 389.0 / 720.0,
            1.0 / 40320.0, 4357.0 / 8064.0);
    CosNext(5, 1.0 / 40320.0, 4357.0 / 8064.0,
            -1.0 / 3628800.0, 1960649.0 / 3628800.0);
    CosNext(6, -1.0 / 3628800.0, 1960649.0 / 3628800.0,
            1.0 / 479001600.0, 258805669.0 / 479001600.0);
    CosNext(7, 1.0 / 479001600.0, 258805669.0 / 479001600.0,
            -1.0 / 87178291200.0, 47102631757.0 / 87178291200.0);
    CosNext(8, -1.0 / 87178291200.0, 47102631757.0 / 87178291200.0,
            1.0 / 20922789888000.0, 11304631621681.0 / 20922789888000.0);
  }

  lemma CosSeries13()
    ensures CosTerm(13) == -1.0 / 403291461126605635584000000.0
    ensures CosSum(13) == 217899306383636256824687449.0 / 403291461126605635584000000.0
  {
    CosSeries8();
    CosNext(9, 1.0 / 20922789888000.0, 11304631621681.0 / 20922789888000.0,
            -1.0 / 6402373705728000.0, 691843455246877.0 / 1280474741145600.0);
    CosNext(10, -1.0 / 6402373705728000.0, 691843455246877.0 / 1280474741145600.0,
            1.0 / 2432902008176640000.0, 1314502564969066301.0 / 2432902008176640000.0);
    CosNext(11, 1.0 / 2432902008176640000.0, 1314502564969066301.0 / 2432902008176640000.0,
            -1.0 / 1124000727777607680000.0, 607300185015708631061.0 / 1124000727777607680000.0);
    CosNext(12, -1.0 / 1124000727777607680000.0, 607300185015708631061.0 / 1124000727777607680000.0,
            1.0 / 620448401733239439360000.0, 335229702128671164345673.0 / 620448401733239439360000.0);
    CosNext(13, 1.0 / 620448401733239439360000.0, 335229702128671164345673.0 / 620448401733239439360000.0,
            -1.0 / 403291461126605635584000000.0, 217899306383636256824687449.0 / 403291461126605635584000000.0);
  }

  lemma CosSeries16()
    ensures CosTerm(16) == 1.0 / 263130836933693530167218012160000000.0
    ensures CosSum(16) == 142170197940288076928023561525491809.0 / 263130836933693530167218012160000000.0
  {
    CosSeries13();
    CosNext(14, -1.0 / 403291461126605635584000000.0, 217899306383636256824687449.0 / 403291461126605635584000000.0,
            1.0 / 304888344611713860501504000000.0, 32946375125205802031892742289.0 / 60977668922342772100300800000.0);
    CosNext(15, 1.0 / 304888344611713860501504000000.0, 32946375125205802031892742289.0 / 60977668922342772100300800000.0,
            -1.0 / 265252859812191058636308480000000.0, 848027998784883070051677094421.0 / 1569543549184562477137920000000.0);
    CosNext(16, -1.0 / 265252859812191058636308480000000.0, 848027998784883070051677094421.0 / 1569543549184562477137920000000.0,
            1.0 / 263130836933693530167218012160000000.0, 142170197940288076928023561525491809.0 / 263130836933693530167218012160000000.0);
  }

  lemma CosSeries17()
    ensures CosTerm(17) == -1.0 / 295232799039604140847618609643520000000.0
    ensures CosSum(17) == 159514962089003222313242436031601809697.0 / 295232799039604140847618609643520000000.0
  {
    CosSeries16();
    CosNext(17, 1.0 / 263130836933693530167218012160000000.0, 142170197940288076928023561525491809.0 / 263130836933693530167218012160000000.0,
            -1.0 / 295232799039604140847618609643520000000.0, 159514962089003222313242436031601809697.0 / 295232799039604140847618609643520000000.0);
  }

  predicate Close(x: real, approx: int, error: int) {
    approx as real - error as real <= x <= approx as real + error as real
  }

  function Units(x: real): real { x * UNIT as real }

  /** `x` in units is close to `approx`. */
  predicate Near(x: real, approx: int, error: int) { Close(Units(x), approx, error) }

  /** The series pins the values at 1 to within one unit. */
  lemma AtOne(s: nat -> real, c: nat -> real)
    requires SineCosine(s, c)
    ensures Near(s(1), SIN1, 1) && Near(c(1), COS1, 1)
  {
    assert Between(s, c, 8);
    SinSeries16(); SinSeries17();
    CosSeries16(); CosSeries17();
  }

  // ----- from the approximations to the values -----

  function Pow2(n: nat): (r: nat)
    ensures r >= 1
  {
    if n == 0 then 1 else 2 * Pow2(n - 1)
  }

  /** How far the approximation at `n` can be off. */
  function Error(n: nat): nat { 3 * Pow2(n) - 3 }

  lemma Bounded(x: real, y: real, e: real, u: real)
    requires -e <= x <= e && -u <= y <= u
    ensures -(e * u) <= x * y <= e * u
  {
  }

  /** The product of two values close to `a` and `b`. */
  lemma ProductClose(x: real, y: real, a: real, b: real, e: real, u: real)
    requires a - e <= x <= a + e && b - 1.0 <= y <= b + 1.0
    requires -u <= y <= u && -u <= a <= u
    ensures -((e + 1.0) * u) <= x * y - a * b <= (e + 1.0) * u
  {
    Bounded(x - a, y, e, u);
    Bounded(a, y - b, u, 1.0);
    assert x * y - a * b == (x - a) * y + a * (y - b);
    assert (e + 1.0) * u == e * u + u * 1.0;
  }

  lemma Divided(x: real, bound: real, u: real, xu: real, bu: real)
    requires u > 0.0 && xu == x * u && bu == bound * u && -bu <= xu <= bu
    ensures -bound <= x <= bound
  {
  }

  lemma Regrouped(e: real, u: real, z: real, r: real)
    ensures (e + 1.0) * u + (e + 1.0) * u + u == (2.0 * e + 3.0) * u && z * u - r * u == (z - r) * u
  {
  }

  lemma Added(m: real, u: real, xy: real, vw: real, ab: real, pq: real, zu: real, ru: real)
    requires zu == xy + vw && -m <= xy - ab <= m && -m <= vw - pq <= m && -u <= ab + pq - ru <= u
    ensures -(m + m + u) <= zu - ru <= m + m + u
  {
  }

  /** Two errors and a rounding. */
  lemma SumClose(m: real, u: real, xy: real, vw: real, ab: real, pq: real, z: real, r: real, e: real)
    requires u > 0.0 && z * u == xy + vw && m == (e + 1.0) * u
    requires -m <= xy - ab <= m && -m <= vw - pq <= m && -u <= ab + pq - r * u <= u
    ensures r - (2.0 * e + 3.0) <= z <= r + (2.0 * e + 3.0)
  {
    Added(m, u, xy, vw, ab, pq, z * u, r * u);
    Regrouped(e, u, z, r);
    Divided(z - r, 2.0 * e + 3.0, u, z * u - r * u, m + m + u);
  }

  /** The approximation is close at every number up to 64. */
  lemma {:induction false} ApproxClose(s: nat -> real, c: nat -> real, k: nat)
    requires SineCosine(s, c) && k < 64
    ensures Near(s(k + 1), Approx(k).s, Error(k + 1)) && Near(c(k + 1), Approx(k).c, Error(k + 1))
  {
    if k == 0 {
      Row0();
      ApproxStep(s, c, 0, START, ROW0[0]);
    } else {
      ApproxClose(s, c, k - 1);
      ApproxSteps(k);
      ApproxStep(s, c, k, Approx(k - 1), Approx(k));
    }
  }

  lemma ApproxStep(s: nat -> real, c: nat -> real, n: nat, p: Pair, q: Pair)
    requires SineCosine(s, c) && Stepped(p, q) && Near(s(n), p.s, Error(n)) && Near(c(n), p.c, Error(n))
    ensures Near(s(n + 1), q.s, Error(n + 1)) && Near(c(n + 1), q.c, Error(n + 1))
  {
    AtOne(s, c);
    assert Adds(s, c, n);
    ErrorNext(n);
    TurnedSine(s(n), c(n), s(1), c(1), s(n + 1), p, q, Error(n));
    TurnedCosine(s(n), c(n), s(1), c(1), c(n + 1), p, q, Error(n));
  }

  lemma ErrorNext(n: nat)
    ensures Error(n + 1) == 2 * Error(n) + 3
  {}

  lemma CombinedScaled(x: real, y: real, v: real, w: real, z: real, a: real, b: real, p: real, q: real, r: real, e: real, u: real)
    requires u > 0.0 && z * u == x * y + v * w
    requires a - e <= x <= a + e && b - 1.0 <= y <= b + 1.0 && p - e <= v <= p + e && q - 1.0 <= w <= q + 1.0
    requires -u <= y <= u && -u <= w <= u && -u <= a <= u && -u <= p <= u
    requires -u <= a * b + p * q - r * u <= u
    ensures r - (2.0 * e + 3.0) <= z <= r + (2.0 * e + 3.0)
  {
    ProductClose(x, y, a, b, e, u);
    ProductClose(v, w, p, q, e, u);
    SumClose((e + 1.0) * u, u, x * y, v * w, a * b, p * q, z, r, e);
  }

  /** One step of the addition formulas for values close to their approximations. */
  lemma Combined(x: real, y: real, v: real, w: real, z: real, a: int, b: int, p: int, q: int, r: int, e: nat, n: int, u: real)
    requires n > 0 && u == n as real && z * u == x * y + v * w
    requires Within(a, n) && Within(p, n) && Within(a * b + p * q - r * n, n) && Within(b, n - 1) && Within(q, n - 1)
    requires Close(x, a, e) && Close(v, p, e) && Close(y, b, 1) && Close(w, q, 1)
    ensures Close(z, r, 2 * e + 3)
  {
    Products(a, b, p, q, r, n);
    CombinedScaled(x, y, v, w, z, a as real, b as real, p as real, q as real, r as real, e as real, u);
  }

  lemma TurnedSine(x: real, y: real, s1: real, c1: real, z: real, p: Pair, q: Pair, e: nat)
    requires SineOfSum(x, y, s1, c1, z) && Stepped(p, q)
    requires Near(x, p.s, e) && Near(y, p.c, e) && Near(s1, SIN1, 1) && Near(c1, COS1, 1)
    ensures Near(z, q.s, 2 * e + 3)
  {
    ScaledSine(x, y, s1, c1, z, UNIT as real);
    Combined(Units(x), Units(c1), Units(y), Units(s1), Units(z), p.s, COS1, p.c, SIN1, q.s, e, UNIT, UNIT as real);
  }

  lemma TurnedCosine(x: real, y: real, s1: real, c1: real, z: real, p: Pair, q: Pair, e: nat)
    requires CosineOfSum(x, y, s1, c1, z) && Stepped(p, q)
    requires Near(x, p.s, e) && Near(y, p.c, e) && Near(s1, SIN1, 1) && Near(c1, COS1, 1)
    ensures Near(z, q.c, 2 * e + 3)
  {
    ScaledCosine(x, y, s1, c1, z, UNIT as real);
    SteppedCosine(p, q);
    CloseNegated(Units(s1), SIN1, 1);
    Combined(Units(y), Units(c1), Units(x), -Units(s1), Units(z), p.c, COS1, p.s, -SIN1, q.c, e, UNIT, UNIT as real);
  }

  lemma ScaledSine(x: real, y: real, s1: real, c1: real, z: real, u: real)
    requires SineOfSum(x, y, s1, c1, z) && u == UNIT as real
    ensures Units(z) * u == Units(x) * Units(c1) + Units(y) * Units(s1)
  {
    Scaled(x, c1, y, s1, z, u);
  }

  lemma ScaledCosine(x: real, y: real, s1: real, c1: real, z: real, u: real)
    requires CosineOfSum(x, y, s1, c1, z) && u == UNIT as real
    ensures Units(z) * u == Units(y) * Units(c1) + Units(x) * (-Units(s1))
  {
    ScaledMinus(y, c1, x, s1, z, u);
  }

  lemma Negated(x: int, y: int, z: int)
    ensures x + y * (-z) == x - y * z
  {
  }

  lemma SteppedCosine(p: Pair, q: Pair)
    requires Stepped(p, q)
    ensures Within(p.c * COS1 + p.s * (-SIN1) - q.c * UNIT, UNIT)
  {
    Negated(p.c * COS1, p.s, SIN1);
  }

  lemma CloseNegated(x: real, a: int, e: int)
    requires Close(x, a, e)
    ensures Close(-x, -a, e)
  {
  }

  lemma ScaledMinus(x: real, y: real, v: real, w: real, z: real, u: real)
    requires z == x * y - v * w
    ensures (z * u) * u == (x * u) * (y * u) + (v * u) * (-(w * u))
  {
    assert z == x * y + v * (-w);
    Scaled(x, y, v, -w, z, u);
    assert (-w) * u == -(w * u);
  }

  lemma Products(a: int, b: int, p: int, q: int, r: int, u: int)
    ensures (a * b + p * q - r * u) as real == a as real * b as real + p as real * q as real - r as real * u as real
  {
  }

  lemma Scaled(x: real, y: real, v: real, w: real, z: real, u: real)
    requires z == x * y + v * w
    ensures (z * u) * u == (x * u) * (y * u) + (v * u) * (w * u)
  {
    assert (x * u) * (y * u) == (x * y) * (u * u);
    assert (v * u) * (w * u) == (v * w) * (u * u);
    assert (x * y) * (u * u) + (v * w) * (u * u) == z * (u * u);
  }

  // ----- the constants -----

  /** `t` is the integer part of 2^32 times the absolute value of `x`. */
  ghost predicate IntegerPart(t: Word, x: real) {
    t as real <= 4294967296.0 * (if x < 0.0 then -x else x) < t as real + 1.0
  }

  const ERROR64: int := 55340232221128654848

  lemma {:induction false} ErrorGrows(n: nat, m: nat)
    requires n <= m
    ensures Pow2(n) <= Pow2(m)
    decreases m - n
  {
    if n < m { ErrorGrows(n, m - 1); }
  }

  lemma {:induction false} Pow2Adds(m: nat, n: nat)
    ensures Pow2(m + n) == Pow2(m) * Pow2(n)
  {
    if m > 0 { Pow2Adds(m - 1, n); }
  }

  lemma Doubled(n: nat, v: nat)
    requires Pow2(n) == v
    ensures Pow2(2 * n) == v * v
  {
    Pow2Adds(n, n);
  }

  lemma Pow2At64(k: nat)
    requires k == 2
    ensures Pow2(32 * k) == 18446744073709551616
  {
    assert Pow2(k) == 2 * Pow2(1);
    Doubled(k, 4);
    Doubled(2 * k, 16);
    Doubled(4 * k, 256);
    Doubled(8 * k, 65536);
    Doubled(16 * k, 4294967296);
  }

  lemma ErrorBound(n: nat, k: nat)
    requires n <= 32 * k && k == 2
    ensures Error(n) <= ERROR64
  {
    ErrorGrows(n, 32 * k);
    Pow2At64(k);
  }

  /** The approximation `a` leaves no doubt about the integer part. */
  predicate Decides(a: int, t: Word) {
    var x := if a < 0 then -a else a;
    t * UNIT <= 4294967296 * (x - ERROR64) && 4294967296 * (x + ERROR64) < (t + 1) * UNIT && x > ERROR64
  }


  // ----- the table -----

  const NUMBERS0: seq<Word> := [
    0xd76aa478, 0xe8c7b756, 0x242070db, 0xc1bdceee, 0xf57c0faf, 0x4787c62a, 0xa8304613, 0xfd469501
  ]

  const NUMBERS1: seq<Word> := [
    0x698098d8, 0x8b44f7af, 0xffff5bb1, 0x895cd7be, 0x6b901122, 0xfd987193, 0xa679438e, 0x49b40821
  ]

  const NUMBERS2: seq<Word> := [
    0xf61e2562, 0xc040b340, 0x265e5a51, 0xe9b6c7aa, 0xd62f105d, 0x02441453, 0xd8a1e681, 0xe7d3fbc8
  ]

  const NUMBERS3: seq<Word> := [
    0x21e1cde6, 0xc33707d6, 0xf4d50d87, 0x455a14ed, 0xa9e3e905, 0xfcefa3f8, 0x676f02d9, 0x8d2a4c8a
  ]

  const NUMBERS4: seq<Word> := [
    0xfffa3942, 0x8771f681, 0x6d9d6122, 0xfde5380c, 0xa4beea44, 0x4bdecfa9, 0xf6bb4b60, 0xbebfbc70
  ]

  const NUMBERS5: seq<Word> := [
    0x289b7ec6, 0xeaa127fa, 0xd4ef3085, 0x04881d05, 0xd9d4d039, 0xe6db99e5, 0x1fa27cf8, 0xc4ac5665
  ]

  const NUMBERS6: seq<Word> := [
    0xf4292244, 0x432aff97, 0xab9423a7, 0xfc93a039, 0x655b59c3, 0x8f0ccc92, 0xffeff47d, 0x85845dd1
  ]

  const NUMBERS7: seq<Word> := [
    0x6fa87e4f, 0xfe2ce6e0, 0xa3014314, 0x4e0811a1, 0xf7537e82, 0xbd3af235, 0x2ad7d2bb, 0xeb86d391
  ]

  /** The constants as numbers. */
  function Number(k: nat): Word
    requires k < 64
  {
    if k < 8 then NUMBERS0[k] else if k < 16 then NUMBERS1[k - 8] else if k < 24 then NUMBERS2[k - 16]
    else if k < 32 then NUMBERS3[k - 24] else if k < 40 then NUMBERS4[k - 32] else if k < 48 then NUMBERS5[k - 40]
    else if k < 56 then NUMBERS6[k - 48] else NUMBERS7[k - 56]
  }

  predicate RowDecides(row: seq<Pair>, ns: seq<Word>) {
    |row| == |ns| == 8 && forall j :: 0 <= j < 8 ==> Decides(row[j].s, ns[j])
  }

  lemma Numbers0()
    ensures RowDecides(ROW0, NUMBERS0)
  {
    assert Decides(ROW0[0].s, NUMBERS0[0]);
    assert Decides(ROW0[1].s, NUMBERS0[1]);
    assert Decides(ROW0[2].s, NUMBERS0[2]);
    assert Decides(ROW0[3].s, NUMBERS0[3]);
    assert Decides(ROW0[4].s, NUMBERS0[4]);
    assert Decides(ROW0[5].s, NUMBERS0[5]);
    assert Decides(ROW0[6].s, NUMBERS0[6]);
    assert Decides(ROW0[7].s, NUMBERS0[7]);
  }

  lemma Numbers1()
    ensures RowDecides(ROW1, NUMBERS1)
  {
    assert Decides(ROW1[0].s, NUMBERS1[0]);
    assert Decides(ROW1[1].s, NUMBERS1[1]);
    assert Decides(ROW1[2].s, NUMBERS1[2]);
    assert Decides(ROW1[3].s, NUMBERS1[3]);
    assert Decides(ROW1[4].s, NUMBERS1[4]);
    assert Decides(ROW1[5].s, NUMBERS1[5]);
    assert Decides(ROW1[6].s, NUMBERS1[6]);
    assert Decides(ROW1[7].s, NUMBERS1[7]);
  }

  lemma Numbers2()
    ensures RowDecides(ROW2, NUMBERS2)
  {
    assert Decides(ROW2[0].s, NUMBERS2[0]);
    assert Decides(ROW2[1].s, NUMBERS2[1]);
    assert Decides(ROW2[2].s, NUMBERS2[2]);
    assert Decides(ROW2[3].s, NUMBERS2[3]);
    assert Decides(ROW2[4].s, NUMBERS2[4]);
    assert Decides(ROW2[5].s, NUMBERS2[5]);
    assert Decides(ROW2[6].s, NUMBERS2[6]);
    assert Decides(ROW2[7].s, NUMBERS2[7]);
  }

  lemma Numbers3()
    ensures RowDecides(ROW3, NUMBERS3)
  {
    assert Decides(ROW3[0].s, NUMBERS3[0]);
    assert Decides(ROW3[1].s, NUMBERS3[1]);
    assert Decides(ROW3[2].s, NUMBERS3[2]);
    assert Decides(ROW3[3].s, NUMBERS3[3]);
    assert Decides(ROW3[4].s, NUMBERS3[4]);
    assert Decides(ROW3[5].s, NUMBERS3[5]);
    assert Decides(ROW3[6].s, NUMBERS3[6]);
    assert Decides(ROW3[7].s, NUMBERS3[7]);
  }

  lemma Numbers4()
    ensures RowDecides(ROW4, NUMBERS4)
  {
    assert Decides(ROW4[0].s, NUMBERS4[0]);
    assert Decides(ROW4[1].s, NUMBERS4[1]);
    assert Decides(ROW4[2].s, NUMBERS4[2]);
    assert Decides(ROW4[3].s, NUMBERS4[3]);
    assert Decides(ROW4[4].s, NUMBERS4[4]);
    assert Decides(ROW4[5].s, NUMBERS4[5]);
    assert Decides(ROW4[6].s, NUMBERS4[6]);
    assert Decides(ROW4[7].s, NUMBERS4[7]);
  }

  lemma Numbers5()
    ensures RowDecides(ROW5, NUMBERS5)
  {
    assert Decides(ROW5[0].s, NUMBERS5[0]);
    assert Decides(ROW5[1].s, NUMBERS5[1]);
    assert Decides(ROW5[2].s, NUMBERS5[2]);
    assert Decides(ROW5[3].s, NUMBERS5[3]);
    assert Decides(ROW5[4].s, NUMBERS5[4]);
    assert Decides(ROW5[5].s, NUMBERS5[5]);
    assert Decides(ROW5[6].s, NUMBERS5[6]);
    assert Decides(ROW5[7].s, NUMBERS5[7]);
  }

  lemma Numbers6()
    ensures RowDecides(ROW6, NUMBERS6)
  {
    assert Decides(ROW6[0].s, NUMBERS6[0]);
    assert Decides(ROW6[1].s, NUMBERS6[1]);
    assert Decides(ROW6[2].s, NUMBERS6[2]);
    assert Decides(ROW6[3].s, NUMBERS6[3]);
    assert Decides(ROW6[4].s, NUMBERS6[4]);
    assert Decides(ROW6[5].s, NUMBERS6[5]);
    assert Decides(ROW6[6].s, NUMBERS6[6]);
    assert Decides(ROW6[7].s, NUMBERS6[7]);
  }

  lemma Numbers7()
    ensures RowDecides(ROW7, NUMBERS7)
  {
    assert Decides(ROW7[0].s, NUMBERS7[0]);
    assert Decides(ROW7[1].s, NUMBERS7[1]);
    assert Decides(ROW7[2].s, NUMBERS7[2]);
    assert Decides(ROW7[3].s, NUMBERS7[3]);
    assert Decides(ROW7[4].s, NUMBERS7[4]);
    assert Decides(ROW7[5].s, NUMBERS7[5]);
    assert Decides(ROW7[6].s, NUMBERS7[6]);
    assert Decides(ROW7[7].s, NUMBERS7[7]);
  }

  lemma NumberDecided(k: nat)
    requires k < 64
    ensures Decides(Approx(k).s, Number(k))
  {
    if k < 8 { Numbers0(); } else if k < 16 { Numbers1(); } else if k < 24 { Numbers2(); } else if k < 32 { Numbers3(); }
    else if k < 40 { Numbers4(); } else if k < 48 { Numbers5(); } else if k < 56 { Numbers6(); } else { Numbers7(); }
  }

  predicate IsWord(w: bv32, t: Word) { w as nat == t }

  predicate Tabulated(k: nat) { k < 64 && IsWord(Constant(k), Number(k)) }

  lemma Words0()
    ensures Tabulated(0)
    ensures Tabulated(1)
    ensures Tabulated(2)
    ensures Tabulated(3)
    ensures Tabulated(4)
    ensures Tabulated(5)
    ensures Tabulated(6)
    ensures Tabulated(7)
  {
    assert Constant(0) == 0xd76aa478 && IsWord(0xd76aa478, 0xd76aa478);
    assert Constant(1) == 0xe8c7b756 && IsWord(0xe8c7b756, 0xe8c7b756);
    assert Constant(2) == 0x242070db && IsWord(0x242070db, 0x242070db);
    assert Constant(3) == 0xc1bdceee && IsWord(0xc1bdceee, 0xc1bdceee);
    assert Constant(4) == 0xf57c0faf && IsWord(0xf57c0faf, 0xf57c0faf);
    assert Constant(5) == 0x4787c62a && IsWord(0x4787c62a, 0x4787c62a);
    assert Constant(6) == 0xa8304613 && IsWord(0xa8304613, 0xa8304613);
    assert Constant(7) == 0xfd469501 && IsWord(0xfd469501, 0xfd469501);
  }

  lemma Words1()
    ensures Tabulated(8)
    ensures Tabulated(9)
    ensures Tabulated(10)
    ensures Tabulated(11)
    ensures Tabulated(12)
    ensures Tabulated(13)
    ensures Tabulated(14)
    ensures Tabulated(15)
  {
    assert Constant(8) == 0x698098d8 && IsWord(0x698098d8, 0x698098d8);
    assert Constant(9) == 0x8b44f7af && IsWord(0x8b44f7af, 0x8b44f7af);
    assert Constant(10) == 0xffff5bb1 && IsWord(0xffff5bb1, 0xffff5bb1);
    assert Constant(11) == 0x895cd7be && IsWord(0x895cd7be, 0x895cd7be);
    assert Constant(12) == 0x6b901122 && IsWord(0x6b901122, 0x6b901122);
    assert Constant(13) == 0xfd987193 && IsWord(0xfd987193, 0xfd987193);
    assert Constant(14) == 0xa679438e && IsWord(0xa679438e, 0xa679438e);
    assert Constant(15) == 0x49b40821 && IsWord(0x49b40821, 0x49b40821);
  }

  lemma Words2()
    ensures Tabulated(16)
    ensures Tabulated(17)
    ensures Tabulated(18)
    ensures Tabulated(19)
    ensures Tabulated(20)
    ensures Tabulated(21)
    ensures Tabulated(22)
    ensures Tabulated(23)
  {
    assert Constant(16) == 0xf61e2562 && IsWord(0xf61e2562, 0xf61e2562);
    assert Constant(17) == 0xc040b340 && IsWord(0xc040b340, 0xc040b340);
    assert Constant(18) == 0x265e5a51 && IsWord(0x265e5a51, 0x265e5a51);
    assert Constant(19) == 0xe9b6c7aa && IsWord(0xe9b6c7aa, 0xe9b6c7aa);
    assert Constant(20) == 0xd62f105d && IsWord(0xd62f105d, 0xd62f105d);
    assert Constant(21) == 0x02441453 && IsWord(0x02441453, 0x02441453);
    assert Constant(22) == 0xd8a1e681 && IsWord(0xd8a1e681, 0xd8a1e681);
    assert Constant(23) == 0xe7d3fbc8 && IsWord(0xe7d3fbc8, 0xe7d3fbc8);
  }

  lemma Words3()
    ensures Tabulated(24)
    ensures Tabulated(25)
    ensures Tabulated(26)
    ensures Tabulated(27)
    ensures Tabulated(28)
    ensures Tabulated(29)
    ensures Tabulated(30)
    ensures Tabulated(31)
  {
    assert Constant(24) == 0x21e1cde6 && IsWord(0x21e1cde6, 0x21e1cde6);
    assert Constant(25) == 0xc33707d6 && IsWord(0xc33707d6, 0xc33707d6);
    assert Constant(26) == 0xf4d50d87 && IsWord(0xf4d50d87, 0xf4d50d87);
    assert Constant(27) == 0x455a14ed && IsWord(0x455a14ed, 0x455a14ed);
    assert Constant(28) == 0xa9e3e905 && IsWord(0xa9e3e905, 0xa9e3e905);
    assert Constant(29) == 0xfcefa3f8 && IsWord(0xfcefa3f8, 0xfcefa3f8);
    assert Constant(30) == 0x676f02d9 && IsWord(0x676f02d9, 0x676f02d9);
    assert Constant(31) == 0x8d2a4c8a && IsWord(0x8d2a4c8a, 0x8d2a4c8a);
  }

  lemma Words4()
    ensures Tabulated(32)
    ensures Tabulated(33)
    ensures Tabulated(34)
    ensures Tabulated(35)
    ensures Tabulated(36)
    ensures Tabulated(37)
    ensures Tabulated(38)
    ensures Tabulated(39)
  {
    assert Constant(32) == 0xfffa3942 && IsWord(0xfffa3942, 0xfffa3942);
    assert Constant(33) == 0x8771f681 && IsWord(0x8771f681, 0x8771f681);
    assert Constant(34) == 0x6d9d6122 && IsWord(0x6d9d6122, 0x6d9d6122);
    assert Constant(35) == 0xfde5380c && IsWord(0xfde5380c, 0xfde5380c);
    assert Constant(36) == 0xa4beea44 && IsWord(0xa4beea44, 0xa4beea44);
    assert Constant(37) == 0x4bdecfa9 && IsWord(0x4bdecfa9, 0x4bdecfa9);
    assert Constant(38) == 0xf6bb4b60 && IsWord(0xf6bb4b60, 0xf6bb4b60);
    assert Constant(39) == 0xbebfbc70 && IsWord(0xbebfbc70, 0xbebfbc70);
  }

  lemma Words5()
    ensures Tabulated(40)
    ensures Tabulated(41)
    ensures Tabulated(42)
    ensures Tabulated(43)
    ensures Tabulated(44)
    ensures Tabulated(45)
    ensures Tabulated(46)
    ensures Tabulated(47)
  {
    assert Constant(40) == 0x289b7ec6 && IsWord(0x289b7ec6, 0x289b7ec6);
    assert Constant(41) == 0xeaa127fa && IsWord(0xeaa127fa, 0xeaa127fa);
    assert Constant(42) == 0xd4ef3085 && IsWord(0xd4ef3085, 0xd4ef3085);
    assert Constant(43) == 0x04881d05 && IsWord(0x04881d05, 0x04881d05);
    assert Constant(44) == 0xd9d4d039 && IsWord(0xd9d4d039, 0xd9d4d039);
    assert Constant(45) == 0xe6db99e5 && IsWord(0xe6db99e5, 0xe6db99e5);
    assert Constant(46) == 0x1fa27cf8 && IsWord(0x1fa27cf8, 0x1fa27cf8);
    assert Constant(47) == 0xc4ac5665 && IsWord(0xc4ac5665, 0xc4ac5665);
  }

  lemma Words6()
    ensures Tabulated(48)
    ensures Tabulated(49)
    ensures Tabulated(50)
    ensures Tabulated(51)
    ensures Tabulated(52)
    ensures Tabulated(53)
    ensures Tabulated(54)
    ensures Tabulated(55)
  {
    assert Constant(48) == 0xf4292244 && IsWord(0xf4292244, 0xf4292244);
    assert Constant(49) == 0x432aff97 && IsWord(0x432aff97, 0x432aff97);
    assert Constant(50) == 0xab9423a7 && IsWord(0xab9423a7, 0xab9423a7);
    assert Constant(51) == 0xfc93a039 && IsWord(0xfc93a039, 0xfc93a039);
    assert Constant(52) == 0x655b59c3 && IsWord(0x655b59c3, 0x655b59c3);
    assert Constant(53) == 0x8f0ccc92 && IsWord(0x8f0ccc92, 0x8f0ccc92);
    assert Constant(54) == 0xffeff47d && IsWord(0xffeff47d, 0xffeff47d);
    assert Constant(55) == 0x85845dd1 && IsWord(0x85845dd1, 0x85845dd1);
  }

  lemma Words7()
    ensures Tabulated(56)
    ensures Tabulated(57)
    ensures Tabulated(58)
    ensures Tabulated(59)
    ensures Tabulated(60)
    ensures Tabulated(61)
    ensures Tabulated(62)
    ensures Tabulated(63)
  {
    assert Constant(56) == 0x6fa87e4f && IsWord(0x6fa87e4f, 0x6fa87e4f);
    assert Constant(57) == 0xfe2ce6e0 && IsWord(0xfe2ce6e0, 0xfe2ce6e0);
    assert Constant(58) == 0xa3014314 && IsWord(0xa3014314, 0xa3014314);
    assert Constant(59) == 0x4e0811a1 && IsWord(0x4e0811a1, 0x4e0811a1);
    assert Constant(60) == 0xf7537e82 && IsWord(0xf7537e82, 0xf7537e82);
    assert Constant(61) == 0xbd3af235 && IsWord(0xbd3af235, 0xbd3af235);
    assert Constant(62) == 0x2ad7d2bb && IsWord(0x2ad7d2bb, 0x2ad7d2bb);
    assert Constant(63) == 0xeb86d391 && IsWord(0xeb86d391, 0xeb86d391);
  }

  lemma OneOfEight(p: nat -> bool, n: nat, k: nat)
    requires p(n) && p(n + 1) && p(n + 2) && p(n + 3) && p(n + 4) && p(n + 5) && p(n + 6) && p(n + 7)
    requires n <= k < n + 8
    ensures p(k)
  {}

  lemma NumberIsConstant(k: nat)
    requires k < 64
    ensures Tabulated(k)
  {
    var p: nat -> bool := Tabulated;
    if k < 32 {
      if k < 8 { Words0(); OneOfEight(p, 0, k); } else if k < 16 { Words1(); OneOfEight(p, 8, k); }
      else if k < 24 { Words2(); OneOfEight(p, 16, k); } else { Words3(); OneOfEight(p, 24, k); }
    } else {
      if k < 40 { Words4(); OneOfEight(p, 32, k); } else if k < 48 { Words5(); OneOfEight(p, 40, k); }
      else if k < 56 { Words6(); OneOfEight(p, 48, k); } else { Words7(); OneOfEight(p, 56, k); }
    }
  }

  lemma DecidedPart(x: real, a: int, e: int, t: Word)
    requires Near(x, a, e) && e <= ERROR64 && Decides(a, t)
    ensures IntegerPart(t, x)
  {
  }

  /** The constant of step `k` is the integer part of 2^32 times the absolute value of sin(k + 1). */
  lemma ConstantsAreSines(s: nat -> real, c: nat -> real, k: nat) returns (t: Word)
    requires SineCosine(s, c) && k < 64
    ensures Constant(k) as nat == t && IntegerPart(t, s(k + 1))
  {
    t := Number(k);
    NumberIsConstant(k);
    NumberDecided(k);
    ApproxClose(s, c, k);
    ErrorBound(k + 1, 2);
    DecidedPart(s(k + 1), Approx(k).s, Error(k + 1), t);
  }
}
