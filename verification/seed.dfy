/** The seed data the store starts from: five users (two teachers, three
    students), four processed notes and one chat log. */
module Seed {
  import opened Wrappers
  import opened Types
  import opened Seqs
  import opened Data

  const MockUsers: seq<User> := [
    User("user_1", "Dr. Evelyn Reed", "e.reed@university.edu", Teacher,
         "https://picsum.photos/seed/101/100/100", Some("Quantum Physics")),
    User("user_2", "Prof. Samuel Greene", "s.greene@university.edu", Teacher,
         "https://picsum.photos/seed/102/100/100", Some("Organic Chemistry")),
    User("user_3", "Alex Johnson", "a.johnson@student.edu", Student,
         "https://picsum.photos/seed/103/100/100", None),
    User("user_4", "Maria Garcia", "m.garcia@student.edu", Student,
         "https://picsum.photos/seed/104/100/100", None),
    User("user_5", "Chen Wei", "c.wei@student.edu", Student,
         "https://picsum.photos/seed/105/100/100", None)
  ]

  const MockNotes: seq<Note> := [
    Note("note_1", "Introduction to Quantum Mechanics", "Physics", "Fall 2024",
         "user_1", "Dr. Evelyn Reed",
         "Quantum mechanics is a fundamental theory in physics that provides a description of the physical properties of nature at the scale of atoms and subatomic particles. It is the foundation of all quantum physics including quantum chemistry, quantum field theory, quantum technology, and quantum information science.\nKey concepts include quantization of energy, wave-particle duality, the uncertainty principle, and quantum entanglement.\nThe Schrödinger equation is a mathematical equation that describes the changes over time of a physical system in which quantum effects, such as wave-particle duality, are significant.",
         Some("An introductory overview of quantum mechanics, covering its fundamental role in modern physics and key concepts like quantization, wave-particle duality, and the Schrödinger equation."),
         Some(["quantum mechanics", "physics", "Schrödinger equation"]),
         128, 450, "2024-08-15T10:00:00Z"),
    Note("note_2", "Wave-Particle Duality", "Physics", "Fall 2024",
         "user_1", "Dr. Evelyn Reed",
         "Wave-particle duality is the concept in quantum mechanics that every particle or quantum entity may be described as either a particle or a wave. It expresses the inability of the classical concepts \"particle\" or \"wave\" to fully describe the behavior of quantum-scale objects.\nThe double-slit experiment is a classic demonstration of this phenomenon. Electrons, which are particles, create an interference pattern characteristic of waves when passed through two closely spaced slits.",
         Some("A detailed explanation of wave-particle duality, using the double-slit experiment as a prime example of how quantum entities exhibit both particle and wave-like properties."),
         Some(["wave-particle duality", "double-slit experiment", "quantum"]),
         95, 310, "2024-09-01T14:30:00Z"),
    Note("note_3", "Basics of Alkanes and Cycloalkanes", "Chemistry", "Fall 2024",
         "user_2", "Prof. Samuel Greene",
         "Alkanes are saturated hydrocarbons, meaning they consist of hydrogen and carbon atoms arranged in a tree structure in which all the carbon-carbon bonds are single. Alkanes have the general chemical formula C_n H_{2n+2}.\nCycloalkanes are a type of alkane which have one or more rings of carbon atoms in their chemical structure. They are also saturated as all of the carbon-carbon bonds are single bonds.",
         Some("An introduction to saturated hydrocarbons, focusing on the structure and general formula of alkanes and the cyclic nature of cycloalkanes."),
         Some(["alkanes", "chemistry", "hydrocarbons", "cycloalkanes"]),
         210, 680, "2024-08-20T09:00:00Z"),
    Note("note_4", "Introduction to JavaScript", "Computer Science", "Spring 2024",
         "user_2", "Prof. Samuel Greene",
         "JavaScript, often abbreviated as JS, is a programming language that is one of the core technologies of the World Wide Web, alongside HTML and CSS. As of 2023, 98.7% of websites use JavaScript on the client side for webpage behavior, often incorporating third-party libraries.\nIt is a high-level, often just-in-time compiled, and multi-paradigm language that has curly-bracket syntax, dynamic typing, prototype-based object-orientation, and first-class functions.",
         Some("A foundational overview of JavaScript, covering its role as a core web technology, its main features like dynamic typing and first-class functions, and its ubiquitous use in modern websites."),
         Some(["javascript", "web development", "programming"]),
         500, 1500, "2024-02-10T11:00:00Z")
  ]

  const MockChatMessages: map<string, seq<ChatMessage>> := map[
    "note_1" := [
      ChatMessage("msg_1", FromUser, "Can you explain the uncertainty principle in simple terms?"),
      ChatMessage("msg_2", FromAssistant,
        "Of course! The Uncertainty Principle, formulated by Werner Heisenberg, states that there is a fundamental limit to how precisely we can know certain pairs of physical properties of a particle at the same time. For example, the more precisely you know the position of a particle, the less precisely you can know its momentum, and vice versa. It's an inherent property of the quantum world!")
    ]
  ]

  const InitialStore: Store := Store(MockUsers, MockNotes, MockChatMessages)

  lemma SeedUserIdsDistinct()
    ensures DistinctKeys(MockUsers, UserKey)
  {
    forall i, j | 0 <= i < j < |MockUsers|
      ensures MockUsers[i].id != MockUsers[j].id
    {
      assert MockUsers[i].id[5] != MockUsers[j].id[5];
    }
  }

  lemma SeedNoteIdsDistinct()
    ensures DistinctKeys(MockNotes, NoteKey)
  {
    forall i, j | 0 <= i < j < |MockNotes|
      ensures MockNotes[i].id != MockNotes[j].id
    {
      assert MockNotes[i].id[5] != MockNotes[j].id[5];
    }
  }

  lemma SeedNotesOwned()
    ensures NotesOwnedByTeachers(InitialStore)
  {
    SeedUserIdsDistinct();
    FindDistinct(MockUsers, UserKey, 0);
    FindDistinct(MockUsers, UserKey, 1);
    var evelyn := GetUserById(InitialStore, "user_1");
    var samuel := GetUserById(InitialStore, "user_2");
    assert evelyn == Some(MockUsers[0]) && samuel == Some(MockUsers[1]);
    forall k | 0 <= k < |MockNotes|
      ensures var owner := GetUserById(InitialStore, MockNotes[k].teacherId);
              owner.Some? && owner.value.role == Teacher && owner.value.name == MockNotes[k].teacherName
    {
      if k < 2 {
        assert MockNotes[k].teacherId == "user_1" && MockNotes[k].teacherName == MockUsers[0].name;
      } else {
        assert MockNotes[k].teacherId == "user_2" && MockNotes[k].teacherName == MockUsers[1].name;
      }
    }
  }

  lemma SeedChatsOnSeedNotes()
    ensures forall id :: id in MockChatMessages ==> GetNoteById(InitialStore, id).Some?
  {
    assert MockNotes[0].id == "note_1";
  }

  /** The seed satisfies the store's referential invariants: user and note
      ids are distinct, every note is processed and owned by a teacher of the
      same name, and the only chat log belongs to a seed note. */
  lemma SeedInvariant()
    ensures DistinctKeys(MockUsers, UserKey)
    ensures DistinctKeys(MockNotes, NoteKey)
    ensures NotesOwnedByTeachers(InitialStore)
    ensures forall k :: 0 <= k < |MockNotes| ==> Processed(MockNotes[k])
    ensures forall id :: id in MockChatMessages ==> GetNoteById(InitialStore, id).Some?
  {
    SeedUserIdsDistinct();
    SeedNoteIdsDistinct();
    SeedNotesOwned();
    SeedChatsOnSeedNotes();
  }
}
