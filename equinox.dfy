/**
 * The host objects of the p2 engine that the actions use: the framework-admin
 * Manipulator with its configuration properties, and the JVM's system properties.
 */
module Equinox {

  /**
   * A Manipulator: the configuration properties it holds in memory
   * (getConfigData().getProperties()), the properties last written to config.ini,
   * and whether save(true) completes or throws.
   */
  class Manipulator {
    var properties: map<string, string>
    var persisted: map<string, string>
    const saveSucceeds: bool

    constructor (properties: map<string, string>, saveSucceeds: bool)
      ensures this.properties == properties && this.persisted == properties
      ensures this.saveSucceeds == saveSucceeds
    {
      this.properties := properties;
      this.persisted := properties;
      this.saveSucceeds := saveSucceeds;
    }

    /** save(true): writes the in-memory properties to config.ini, or throws. */
    method Save() returns (saved: bool)
      modifies this`persisted
      ensures saved == saveSucceeds
      ensures persisted == if saved then properties else old(persisted)
    {
      saved := saveSucceeds;
      if saved {
        persisted := properties;
      }
    }
  }

  /** The JVM's system properties, as far as the actions write them. */
  class SystemProperties {
    var values: map<string, string>

    constructor (values: map<string, string>)
      ensures this.values == values
    {
      this.values := values;
    }

    /** System.setProperty */
    method SetProperty(key: string, value: string)
      modifies this
      ensures values == old(values)[key := value]
    {
      values := values[key := value];
    }
  }
}
