/** The static catalog the quiz runs on: the closed set of career tags,
    the prediction card for each tag, six personality questions whose
    options vote for a tag, and nine logical questions with one correct
    option each. */
module QuizData {
  import Seqs

  datatype CareerType =
    | Scientist | Engineer | Doctor | TechHero | Artist
    | Sportsperson | EnvironmentHero | Teacher | Leader | Entrepreneur

  /** Every career tag, in declaration order. */
  const AllCareers: seq<CareerType> :=
    [Scientist, Engineer, Doctor, TechHero, Artist,
     Sportsperson, EnvironmentHero, Teacher, Leader, Entrepreneur]

  /** The string spelling of a tag, as stored and displayed. */
  function Tag(c: CareerType): string
  {
    match c
    case Scientist => "scientist"
    case Engineer => "engineer"
    case Doctor => "doctor"
    case TechHero => "techHero"
    case Artist => "artist"
    case Sportsperson => "sportsperson"
    case EnvironmentHero => "environmentHero"
    case Teacher => "teacher"
    case Leader => "leader"
    case Entrepreneur => "entrepreneur"
  }

  datatype PersonalityOption = PersonalityOption(id: string, text: string, careerType: CareerType)

  datatype PersonalityQuestion = PersonalityQuestion(id: string, question: string, options: seq<PersonalityOption>)

  datatype LogicalOption = LogicalOption(id: string, text: string, isCorrect: bool)

  datatype LogicalQuestion = LogicalQuestion(id: string, question: string, options: seq<LogicalOption>)

  datatype CareerPrediction = CareerPrediction(
    careerType: CareerType, title: string, description: string,
    character: string, emoji: string, color: string)

  /** `careerPredictions[c]`: the card shown for tag `c`, which carries `c` itself. */
  function CareerPredictionOf(c: CareerType): (p: CareerPrediction)
    ensures p.careerType == c
    ensures p.title == Title(c) && p.character == Character(c)
  {
    CareerPrediction(c, Title(c), Description(c), Character(c), Emoji(c), Color(c))
  }

  /** Card heading. */
  function Title(c: CareerType): string
  {
    match c
    case Scientist => "Scientist"
    case Engineer => "Engineer"
    case Doctor => "Doctor"
    case TechHero => "Tech Hero"
    case Artist => "Artist"
    case Sportsperson => "Sportsperson"
    case EnvironmentHero => "Environment Hero"
    case Teacher => "Teacher"
    case Leader => "Leader"
    case Entrepreneur => "Entrepreneur"
  }

  /** Card body text. */
  function Description(c: CareerType): string
  {
    match c
    case Scientist => "You are going to become a Scientist and create amazing gadgets — just like Doraemon! You love discovering new things and solving problems with experiments."
    case Engineer => "You are going to become an Engineer and build cool machines — like Phineas and Ferb! You enjoy fixing, building, and creating smart solutions."
    case Doctor => "You are going to become a Doctor and save people — like Baymax! You care deeply about others and want to help them feel better."
    case TechHero => "You are going to become a Tech Hero and control computers — like Hiro from Big Hero 6! You solve problems using logic and smart thinking."
    case Artist => "You are going to become an Artist and bring ideas to life — like Rapunzel! Your imagination makes the world colorful."
    case Sportsperson => "You are going to become a Sportsperson and inspire others — like Goku! You are energetic and never give up."
    case EnvironmentHero => "You are going to protect nature and animals — like Moana! You care about the Earth and living beings."
    case Teacher => "You are going to become a Teacher and guide others — like Dumbledore! You love helping others learn and grow."
    case Leader => "You are going to become a Leader and inspire people — like Simba! You have the courage to stand up and lead."
    case Entrepreneur => "You are going to become an Entrepreneur and build businesses — like Mr. Krabs (but nicer)! You have great ideas and know how to make them happen."
  }

  /** The cartoon character the card compares the child to. */
  function Character(c: CareerType): string
  {
    match c
    case Scientist => "Doraemon"
    case Engineer => "Phineas & Ferb"
    case Doctor => "Baymax"
    case TechHero => "Hiro"
    case Artist => "Rapunzel"
    case Sportsperson => "Goku"
    case EnvironmentHero => "Moana"
    case Teacher => "Dumbledore"
    case Leader => "Simba"
    case Entrepreneur => "Mr. Krabs"
  }

  /** Card emoji. */
  function Emoji(c: CareerType): string
  {
    match c
    case Scientist => "🔬"
    case Engineer => "⚙️"
    case Doctor => "💊"
    case TechHero => "💻"
    case Artist => "🎨"
    case Sportsperson => "⚽"
    case EnvironmentHero => "🌿"
    case Teacher => "📚"
    case Leader => "👑"
    case Entrepreneur => "💡"
  }

  /** Theme colour name of the card. */
  function Color(c: CareerType): string
  {
    match c
    case Scientist => "secondary"
    case Engineer => "accent"
    case Doctor => "coral"
    case TechHero => "lavender"
    case Artist => "sunny"
    case Sportsperson => "primary"
    case EnvironmentHero => "accent"
    case Teacher => "secondary"
    case Leader => "sunny"
    case Entrepreneur => "coral"
  }

  const P1: PersonalityQuestion :=
    PersonalityQuestion("p1", "If school had NO exams for one week, what would you do?", [
      PersonalityOption("a", "Help others learn happily", Teacher),
      PersonalityOption("b", "Do experiments for fun", Scientist),
      PersonalityOption("c", "Build cool inventions", Engineer),
      PersonalityOption("d", "Paint and create art", Artist)])

  const P2: PersonalityQuestion :=
    PersonalityQuestion("p2", "Your teacher says: 'Do anything you like for 1 hour.' What will you do?", [
      PersonalityOption("a", "Teach younger kids", Teacher),
      PersonalityOption("b", "Try science tricks", Scientist),
      PersonalityOption("c", "Code something cool", TechHero),
      PersonalityOption("d", "Play a sport match", Sportsperson)])

  const P3: PersonalityQuestion :=
    PersonalityQuestion("p3", "If you could have any superpower, what would it be?", [
      PersonalityOption("a", "Super strength to play sports", Sportsperson),
      PersonalityOption("b", "Super brain to solve puzzles", TechHero),
      PersonalityOption("c", "Healing power to help sick people", Doctor),
      PersonalityOption("d", "Talk to animals and nature", EnvironmentHero)])

  const P4: PersonalityQuestion :=
    PersonalityQuestion("p4", "What's your favorite way to spend a weekend?", [
      PersonalityOption("a", "Drawing or making crafts", Artist),
      PersonalityOption("b", "Playing outdoor games", Sportsperson),
      PersonalityOption("c", "Reading about how things work", Engineer),
      PersonalityOption("d", "Planning a lemonade stand", Entrepreneur)])

  const P5: PersonalityQuestion :=
    PersonalityQuestion("p5", "What makes you feel really happy?", [
      PersonalityOption("a", "When I fix something broken", Engineer),
      PersonalityOption("b", "When I help someone feel better", Doctor),
      PersonalityOption("c", "When I lead my team to victory", Leader),
      PersonalityOption("d", "When I create something new", Artist)])

  const P6: PersonalityQuestion :=
    PersonalityQuestion("p6", "If you started a club at school, what would it be?", [
      PersonalityOption("a", "Science and experiment club", Scientist),
      PersonalityOption("b", "Nature and environment club", EnvironmentHero),
      PersonalityOption("c", "Coding and robotics club", TechHero),
      PersonalityOption("d", "Young entrepreneurs club", Entrepreneur)])

  const PersonalityQuestions: seq<PersonalityQuestion> := [P1, P2, P3, P4, P5, P6]

  const L1: LogicalQuestion :=
    LogicalQuestion("l1", "You want to make a sandwich. Which order makes sense?", [
      LogicalOption("a", "Eat → Prepare → Buy", false),
      LogicalOption("b", "Buy → Eat → Prepare", false),
      LogicalOption("c", "Buy → Prepare → Eat", true),
      LogicalOption("d", "Prepare → Buy → Eat", false)])

  const L2: LogicalQuestion :=
    LogicalQuestion("l2", "School starts at 9:00 AM. You need 20 minutes to get ready and 30 minutes to travel. When should you wake up?", [
      LogicalOption("a", "7:30 AM", false),
      LogicalOption("b", "8:00 AM", false),
      LogicalOption("c", "8:10 AM", true),
      LogicalOption("d", "8:40 AM", false)])

  const L3: LogicalQuestion :=
    LogicalQuestion("l3", "Which one does NOT belong in this group?", [
      LogicalOption("a", "Dog 🐕", false),
      LogicalOption("b", "Cat 🐱", false),
      LogicalOption("c", "Cow 🐄", false),
      LogicalOption("d", "Chair 🪑", true)])

  const L4: LogicalQuestion :=
    LogicalQuestion("l4", "If you forget to water a plant for many days, what will happen?", [
      LogicalOption("a", "It grows faster", false),
      LogicalOption("b", "It changes color to blue", false),
      LogicalOption("c", "It dries up", true),
      LogicalOption("d", "It gives fruits", false)])

  const L5: LogicalQuestion :=
    LogicalQuestion("l5", "Ravi has 10 candies. He gives 2 candies each to 3 friends. How many candies are left?", [
      LogicalOption("a", "2 candies", false),
      LogicalOption("b", "3 candies", false),
      LogicalOption("c", "4 candies", true),
      LogicalOption("d", "6 candies", false)])

  const L6: LogicalQuestion :=
    LogicalQuestion("l6", "What comes next in the pattern? 2, 4, 6, 8, ___", [
      LogicalOption("a", "9", false),
      LogicalOption("b", "10", true),
      LogicalOption("c", "11", false),
      LogicalOption("d", "12", false)])

  const L7: LogicalQuestion :=
    LogicalQuestion("l7", "If today is Monday, what day was it 3 days ago?", [
      LogicalOption("a", "Thursday", false),
      LogicalOption("b", "Friday", true),
      LogicalOption("c", "Saturday", false),
      LogicalOption("d", "Sunday", false)])

  const L8: LogicalQuestion :=
    LogicalQuestion("l8", "A bird is to sky as a fish is to ___", [
      LogicalOption("a", "Land", false),
      LogicalOption("b", "Water", true),
      LogicalOption("c", "Tree", false),
      LogicalOption("d", "Air", false)])

  const L9: LogicalQuestion :=
    LogicalQuestion("l9", "If 5 apples cost ₹25, how much do 3 apples cost?", [
      LogicalOption("a", "₹10", false),
      LogicalOption("b", "₹15", true),
      LogicalOption("c", "₹20", false),
      LogicalOption("d", "₹12", false)])

  const LogicalQuestions: seq<LogicalQuestion> := [L1, L2, L3, L4, L5, L6, L7, L8, L9]

  /** Points added for a correct logical answer. */
  const PointsPerCorrect: nat := 10

  // ------------------------------------------------------ catalog structure

  function PersonalityIds(qs: seq<PersonalityQuestion>): (ids: seq<string>)
    ensures |ids| == |qs| && forall i :: 0 <= i < |qs| ==> ids[i] == qs[i].id
  {
    seq(|qs|, i requires 0 <= i < |qs| => qs[i].id)
  }

  function LogicalIds(qs: seq<LogicalQuestion>): (ids: seq<string>)
    ensures |ids| == |qs| && forall i :: 0 <= i < |qs| ==> ids[i] == qs[i].id
  {
    seq(|qs|, i requires 0 <= i < |qs| => qs[i].id)
  }

  function PersonalityOptionIds(q: PersonalityQuestion): (ids: seq<string>)
    ensures |ids| == |q.options| && forall j :: 0 <= j < |q.options| ==> ids[j] == q.options[j].id
  {
    seq(|q.options|, j requires 0 <= j < |q.options| => q.options[j].id)
  }

  function LogicalOptionIds(q: LogicalQuestion): (ids: seq<string>)
    ensures |ids| == |q.options| && forall j :: 0 <= j < |q.options| ==> ids[j] == q.options[j].id
  {
    seq(|q.options|, j requires 0 <= j < |q.options| => q.options[j].id)
  }

  /** Number of options flagged correct. */
  function CorrectOptions(os: seq<LogicalOption>): nat
  {
    if |os| == 0 then 0 else (if os[0].isCorrect then 1 else 0) + CorrectOptions(os[1..])
  }

  /** The tag set is closed: ten distinct tags, each with a distinct spelling. */
  lemma CareerCatalog()
    ensures |AllCareers| == 10 && Seqs.Distinct(AllCareers)
    ensures forall c: CareerType :: c in AllCareers
    ensures forall c1: CareerType, c2: CareerType :: Tag(c1) == Tag(c2) ==> c1 == c2
  {
    forall c: CareerType ensures c in AllCareers {
      match c
      case Scientist => assert AllCareers[0] == c;
      case Engineer => assert AllCareers[1] == c;
      case Doctor => assert AllCareers[2] == c;
      case TechHero => assert AllCareers[3] == c;
      case Artist => assert AllCareers[4] == c;
      case Sportsperson => assert AllCareers[5] == c;
      case EnvironmentHero => assert AllCareers[6] == c;
      case Teacher => assert AllCareers[7] == c;
      case Leader => assert AllCareers[8] == c;
      case Entrepreneur => assert AllCareers[9] == c;
    }
  }

  /** The option ids every question of both parts uses. */
  const OptionLetters: seq<string> := ["a", "b", "c", "d"]

  const PersonalityQuestionIds: seq<string> := ["p1", "p2", "p3", "p4", "p5", "p6"]

  const LogicalQuestionIds: seq<string> := ["l1", "l2", "l3", "l4", "l5", "l6", "l7", "l8", "l9"]

  lemma IdListsDistinct()
    ensures Seqs.Distinct(OptionLetters)
    ensures Seqs.Distinct(PersonalityQuestionIds)
    ensures Seqs.Distinct(LogicalQuestionIds)
  {
    forall i, i' | 0 <= i < i' < |LogicalQuestionIds|
      ensures LogicalQuestionIds[i] != LogicalQuestionIds[i']
    {
      assert LogicalQuestionIds[i][1] != LogicalQuestionIds[i'][1];
    }
  }

  /** Six personality questions `p1`..`p6`, each with options `a`..`d`. */
  lemma PersonalityCatalog()
    ensures PersonalityIds(PersonalityQuestions) == PersonalityQuestionIds
    ensures forall i :: 0 <= i < |PersonalityQuestions| ==>
              PersonalityOptionIds(PersonalityQuestions[i]) == OptionLetters
  {
    assert PersonalityOptionIds(PersonalityQuestions[0]) == OptionLetters;
    assert PersonalityOptionIds(PersonalityQuestions[1]) == OptionLetters;
    assert PersonalityOptionIds(PersonalityQuestions[2]) == OptionLetters;
    assert PersonalityOptionIds(PersonalityQuestions[3]) == OptionLetters;
    assert PersonalityOptionIds(PersonalityQuestions[4]) == OptionLetters;
    assert PersonalityOptionIds(PersonalityQuestions[5]) == OptionLetters;
  }

  /** Nine logical questions `l1`..`l9`, each with options `a`..`d`, exactly one correct. */
  lemma LogicalCatalog()
    ensures LogicalIds(LogicalQuestions) == LogicalQuestionIds
    ensures forall i :: 0 <= i < |LogicalQuestions| ==>
              LogicalOptionIds(LogicalQuestions[i]) == OptionLetters
              && CorrectOptions(LogicalQuestions[i].options) == 1
  {
    forall i | 0 <= i < |LogicalQuestions|
      ensures LogicalOptionIds(LogicalQuestions[i]) == OptionLetters
      ensures CorrectOptions(LogicalQuestions[i].options) == 1
    {
      LogicalQuestionShape(i);
    }
  }

  lemma LogicalQuestionShape(i: nat)
    requires i < |LogicalQuestions|
    ensures LogicalOptionIds(LogicalQuestions[i]) == OptionLetters
    ensures CorrectOptions(LogicalQuestions[i].options) == 1
  {
    var q := LogicalQuestions[i];
    assert q.options[1..][1..][1..][1..] == [];
  }

  /** The questions both parts of the quiz are drawn from. */
  datatype Catalog = Catalog(personality: seq<PersonalityQuestion>, logical: seq<LogicalQuestion>)

  /** The catalog the app ships. */
  const AppCatalog: Catalog := Catalog(PersonalityQuestions, LogicalQuestions)

  /** What the engine relies on: both parts non-empty, every question has an
      option, question ids are unique, and option ids are unique within a
      question. */
  ghost predicate WellFormed(cat: Catalog)
  {
    |cat.personality| > 0 && |cat.logical| > 0
    && (forall i :: 0 <= i < |cat.personality| ==> |cat.personality[i].options| > 0)
    && (forall i :: 0 <= i < |cat.logical| ==> |cat.logical[i].options| > 0)
    && UniquePersonalityIds(cat.personality) && UniqueLogicalIds(cat.logical)
  }

  /** Question ids are unique, and option ids are unique within each question. */
  ghost predicate UniquePersonalityIds(qs: seq<PersonalityQuestion>)
  {
    Seqs.Distinct(PersonalityIds(qs))
    && forall i :: 0 <= i < |qs| ==> Seqs.Distinct(PersonalityOptionIds(qs[i]))
  }

  ghost predicate UniqueLogicalIds(qs: seq<LogicalQuestion>)
  {
    Seqs.Distinct(LogicalIds(qs))
    && forall i :: 0 <= i < |qs| ==> Seqs.Distinct(LogicalOptionIds(qs[i]))
  }

  lemma AppCatalogWellFormed()
    ensures WellFormed(AppCatalog)
    ensures |AppCatalog.personality| == 6 && |AppCatalog.logical| == 9
  {
    PersonalityCatalog();
    LogicalCatalog();
    IdListsDistinct();
  }
}
