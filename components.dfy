/** Component data used by the game systems (`salaryman_simulator/src/components.rs`). */
module Components {

  /** The `Person` component: movement speed, health, sanity and a death flag. */
  datatype Person = Person(speed: real, hp: int, san: int, isDead: bool)

  /** `Person::default()`: a living person at full health and sanity who walks at speed 200. */
  function DefaultPerson(): Person {
    Person(200.0, 100, 100, false)
  }
}
